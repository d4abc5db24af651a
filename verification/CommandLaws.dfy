/** What each command does to the queue and the history, in terms of the entries and their fields. */
module CommandLaws {
  import opened Commands
  import opened Common
  import opened History
  import opened Ledger
  import opened Queue
  import opened Selection
  import opened SelectionLaws

  // ---- Edits of several NZBs ----

  /** What an edit makes of one NZB; nothing else about it changes. */
  ghost predicate EditedAs(n: Nzb, m: Nzb, action: EditAction) {
    match action
    case Pause => m == n.(paused := true)
    case Resume => m == n.(paused := false)
    case SetPriority(priority) => m == n.(priority := priority)
    case Merge => m == n
    case Split => m == n
    case _ => m == n.(labels := m.labels) && LabelledAs(n.labels, m.labels, action)
  }

  ghost predicate LabelledAs(l: Labels, m: Labels, action: EditAction) {
    match action
    case SetCategory(category) => m == l.(category := category)
    case SetName(name) => m == l.(name := name)
    case SetDupeKey(key) => m == l.(dupKey := key)
    case SetDupeScore(score) => m == l.(dupScore := score)
    case SetDupeMode(mode) => m == l.(dupMode := mode)
    case SetParameter(key, value) =>
      && m == l.(parameters := m.parameters)
      && forall other :: Lookup(m.parameters, other) == if other == key then Some(value) else Lookup(l.parameters, other)
    case _ => m == l
  }

  lemma EditsOne(q: seq<Nzb>, action: EditAction, id: nat)
    requires !action.Move? && !action.Delete?
    ensures var (r, ok), i := EditStep(q, action, id), IndexOf(q, id);
            && ok && |r| == |q| && (i < |q| ==> EditedAs(q[i], r[i], action))
            && forall j :: 0 <= j < |q| && j != i ==> r[j] == q[j]
  {
    var i := IndexOf(q, id);
    if i < |q| && action.SetParameter? {
      forall other
        ensures Lookup(WithParameter(q[i].labels.parameters, action.key, action.value), other)
             == if other == action.key then Some(action.value) else Lookup(q[i].labels.parameters, other)
      {
        ParameterSet(q[i].labels.parameters, action.key, action.value, other);
      }
    }
    hide Lookup, WithParameter;
  }

  lemma EditedTwice(a: Nzb, b: Nzb, c: Nzb, action: EditAction)
    requires EditedAs(a, b, action) && EditedAs(b, c, action)
    ensures EditedAs(a, c, action)
  {
    hide Lookup;
    match action
    case Pause =>
    case Resume =>
    case SetPriority(priority) =>
    case Merge =>
    case Split =>
    case Move(position) =>
    case Delete =>
    case _ =>
      assert b == a.(labels := b.labels) && c == b.(labels := c.labels);
      RelabelledTwice(a, b, c);
      LabelledTwice(a.labels, b.labels, c.labels, action);
  }

  lemma RelabelledTwice(a: Nzb, b: Nzb, c: Nzb)
    requires b == a.(labels := b.labels) && c == b.(labels := c.labels)
    ensures c == a.(labels := c.labels)
  {
  }

  lemma LabelledTwice(a: Labels, b: Labels, c: Labels, action: EditAction)
    requires LabelledAs(a, b, action) && LabelledAs(b, c, action)
    ensures LabelledAs(a, c, action)
  {
    hide Lookup;
  }

  lemma EditedSameId(n: Nzb, m: Nzb, action: EditAction)
    requires EditedAs(n, m, action)
    ensures m.id == n.id
  {
    hide Lookup;
  }

  /** An edit that neither moves nor deletes reaches exactly the NZBs it names, each in its place. */
  lemma {:induction false} EditsEach(q: seq<Nzb>, action: EditAction, ids: seq<nat>)
    requires DistinctIds(q) && !action.Move? && !action.Delete?
    ensures var (r, ok) := Edited(q, action, ids);
            && ok && |r| == |q|
            && forall j :: 0 <= j < |q| ==> if q[j].id in ids then EditedAs(q[j], r[j], action) else r[j] == q[j]
    decreases |ids|
  {
    if ids != [] {
      EditsOne(q, action, ids[0]);
      var s := EditStep(q, action, ids[0]).0;
      var i := IndexOf(q, ids[0]);
      hide EditStep, EditedAs;
      if i < |q| {
        EditedSameId(q[i], s[i], action);
      }
      EditsEach(s, action, ids[1..]);
      var r := Edited(s, action, ids[1..]).0;
      forall j | 0 <= j < |q|
        ensures if q[j].id in ids then EditedAs(q[j], r[j], action) else r[j] == q[j]
      {
        assert q[j].id in ids <==> q[j].id == ids[0] || q[j].id in ids[1..];
        assert q[j].id == ids[0] ==> j == i;
        if j == i && q[j].id in ids[1..] {
          EditedTwice(q[j], s[j], r[j], action);
        }
      }
    }
  }

  /** The NZBs that are not named, in their order. */
  ghost function Rest(q: seq<Nzb>, ids: seq<nat>): seq<Nzb> {
    if q == [] then [] else Rest(q[..|q| - 1], ids) + if q[|q| - 1].id in ids then [] else [q[|q| - 1]]
  }

  lemma {:induction false} RestOfNone(q: seq<Nzb>, ids: seq<nat>)
    requires forall j :: 0 <= j < |q| ==> q[j].id !in ids
    ensures Rest(q, ids) == q
  {
    if q != [] {
      RestOfNone(q[..|q| - 1], ids);
    }
  }

  lemma {:induction false} WithoutIdIsRest(q: seq<Nzb>, id: nat)
    requires DistinctIds(q)
    ensures WithoutId(q, id) == Rest(q, [id])
  {
    var i, n := IndexOf(q, id), |q| - 1;
    if i == |q| {
      RestOfNone(q, [id]);
    } else if i == n {
      RestOfNone(q[..n], [id]);
    } else {
      hide IndexOf;
      IndexUnique(q[..n], i);
      WithoutIdIsRest(q[..n], id);
      WithoutMore(q, i);
    }
  }

  lemma WithoutMore(q: seq<Nzb>, i: nat)
    requires i < |q| - 1
    ensures Without(q, i) == Without(q[..|q| - 1], i) + [q[|q| - 1]]
  {
  }

  lemma {:induction false} RestTwice(q: seq<Nzb>, id: nat, ids: seq<nat>)
    ensures Rest(Rest(q, [id]), ids) == Rest(q, [id] + ids)
  {
    if q != [] {
      var n := |q| - 1;
      RestTwice(q[..n], id, ids);
      var r := Rest(q[..n], [id]);
      if q[n].id == id {
        assert q[n].id in [id] + ids && r + [] == r;
      } else {
        assert (r + [q[n]])[..|r|] == r;
        assert q[n].id in [id] + ids <==> q[n].id in ids;
      }
    }
  }

  lemma {:induction false} RestDistinct(q: seq<Nzb>, ids: seq<nat>)
    requires DistinctIds(q)
    ensures DistinctIds(Rest(q, ids)) && forall n :: n in Rest(q, ids) <==> n in q && n.id !in ids
  {
    if q != [] {
      var last := |q| - 1;
      RestDistinct(q[..last], ids);
      assert q == q[..last] + [q[last]];
    }
  }

  /** Deleting leaves exactly the NZBs that are not named, in their order. */
  lemma {:induction false} DeletesEach(q: seq<Nzb>, ids: seq<nat>)
    requires DistinctIds(q)
    ensures Edited(q, Delete, ids) == (Rest(q, ids), true)
    decreases |ids|
  {
    if ids == [] {
      RestOfNone(q, ids);
    } else {
      WithoutIdIsRest(q, ids[0]);
      RestDistinct(q, [ids[0]]);
      DeletesEach(WithoutId(q, ids[0]), ids[1..]);
      RestTwice(q, ids[0], ids[1..]);
      assert ids == [ids[0]] + ids[1..];
      hide Rest, WithoutId;
    }
  }

  /** The commands on one NZB are the edits of it alone. */
  lemma CommandsAreEdits(b: Books, id: nat, position: Position, notifies: bool)
    ensures Effect(b, PauseNzb(id), notifies) == Effect(b, EditQueue(Pause, [id]), notifies)
    ensures Effect(b, ResumeNzb(id), notifies) == Effect(b, EditQueue(Resume, [id]), notifies)
    ensures Effect(b, RemoveNzb(id), notifies) == Effect(b, EditQueue(Delete, [id]), notifies)
    ensures Effect(b, MoveNzb(id, position), notifies) == Effect(b, EditQueue(Move(position), [id]), notifies)
  {
    hide Moved, WithoutId;
    OneEdit(b.queue, Pause, id);
    OneEdit(b.queue, Resume, id);
    OneEdit(b.queue, Delete, id);
    OneEdit(b.queue, Move(position), id);
  }

  lemma OneEdit(q: seq<Nzb>, action: EditAction, id: nat)
    ensures Edited(q, action, [id]) == EditStep(q, action, id)
  {
    hide EditStep;
    assert [id][1..] == [];
  }

  // ---- Flags of one NZB ----

  /** Only entry i differs. */
  ghost predicate OnlyAt(b: Books, after: Books, i: nat) {
    && after == b.(queue := after.queue) && |after.queue| == |b.queue|
    && forall j :: 0 <= j < |b.queue| && j != i ==> after.queue[j] == b.queue[j]
  }

  /** Pausing or resuming a file changes its one flag. */
  lemma FilePauses(b: Books, id: nat, f: nat, pause: bool, notifies: bool)
    ensures var i := IndexOf(b.queue, id);
            var after := Effect(b, if pause then PauseFile(id, f) else ResumeFile(id, f), notifies);
            && OnlyAt(b, after, i)
            && (i < |b.queue| && f < |b.queue[i].files| ==>
                  after.queue[i] == b.queue[i].(files := b.queue[i].files[f := b.queue[i].files[f].(paused := pause)]))
            && (i < |b.queue| && f >= |b.queue[i].files| ==> after.queue[i] == b.queue[i])
  {
  }

  /** Par2 files are paused no more; nothing else changes. */
  lemma ParFilesResume(b: Books, id: nat, notifies: bool)
    ensures var i := IndexOf(b.queue, id);
            var after := Effect(b, ParUnpause(id), notifies);
            && OnlyAt(b, after, i)
            && (i < |b.queue| ==>
                  var n, m := b.queue[i], after.queue[i];
                  && m == n.(files := m.files) && |m.files| == |n.files|
                  && forall f :: 0 <= f < |n.files| ==> m.files[f] == n.files[f].(paused := n.files[f].paused && !n.files[f].par))
  {
  }

  /** In post-processing nothing of an NZB is ready. */
  lemma PostProcessingHolds(b: Books, id: nat, notifies: bool)
    requires IndexOf(b.queue, id) < |b.queue|
    ensures var i, after := IndexOf(b.queue, id), Effect(b, UpdatePostStage(id), notifies);
            && OnlyAt(b, after, i) && after.queue[i] == b.queue[i].(post := true)
            && forall filter, f: nat, a: nat :: !Ready(after.queue, filter, i, f, a)
  {
  }

  /** Once it ends the NZB is last in the history, free to come back. */
  lemma PostProcessingEnds(b: Books, id: nat, notifies: bool)
    requires IndexOf(b.queue, id) < |b.queue|
    ensures var i, after := IndexOf(b.queue, id), Effect(b, FinishPostProcessing(id), notifies);
            && after == b.(queue := after.queue, history := after.history)
            && after.queue == b.queue[..i] + b.queue[i + 1..]
            && after.history == b.history + [b.queue[i].(post := false)]
  {
  }

  /** What is paused is ready only when it is forced; what is resumed is ready as far as its files are. */
  lemma PauseHolds(b: Books, id: nat, notifies: bool)
    requires IndexOf(b.queue, id) < |b.queue|
    ensures var i, after := IndexOf(b.queue, id), Effect(b, PauseNzb(id), notifies);
            && OnlyAt(b, after, i)
            && forall filter, f: nat, a: nat :: Ready(after.queue, filter, i, f, a) ==> b.queue[i].priority == Force
    ensures var i, after := IndexOf(b.queue, id), Effect(b, ResumeNzb(id), notifies);
            && OnlyAt(b, after, i)
            && forall f: nat, a: nat ::
                 (&& HasArticle(b.queue[i], f, a) && ArticleAt(b.queue[i], f, a).status == Undefined
                  && !b.queue[i].post && !b.queue[i].files[f].paused) ==>
                   Ready(after.queue, Everything, i, f, a)
  {
  }

  // ---- Adding ----

  /** Nothing of it downloaded, named and ranked as asked for, with the files as parsed. */
  ghost predicate IsNew(n: Nzb, parsed: seq<ParsedFile>, labels: Labels, priority: Priority, paused: bool) {
    && n.labels == labels && n.priority == priority && n.paused == paused && !n.post && !n.reprocess
    && n.health == 1000 && n.critical == CriticalHealth(n.tally.articles, n.par.size, 0)
    && Queue.Balanced(n) && n.tally.succeeded == n.tally.lost == 0 && n.par.failed == n.par.lost == 0
    && |n.files| == |parsed|
    && forall f :: 0 <= f < |parsed| ==>
         && n.files[f].par == parsed[f].par && !n.files[f].paused && !n.files[f].completed
         && |n.files[f].articles| == |parsed[f].segments|
         && forall a :: 0 <= a < |parsed[f].segments| ==> n.files[f].articles[a] == Article(parsed[f].segments[a], Undefined)
  }

  lemma NewNzbIsNew(id: nat, parsed: seq<ParsedFile>, labels: Labels, priority: Priority, paused: bool)
    ensures IsNew(NewNzb(id, parsed, labels, priority, paused), parsed, labels, priority, paused)
  {
    NewNzbBalanced(id, parsed, labels, priority, paused);
    NewTally(parsed);
    NewShares(parsed);
    hide Queue.Balanced, FilesTally, Shares, CriticalHealth, Total;
  }

  lemma {:induction false} NewTally(parsed: seq<ParsedFile>)
    ensures FilesTally(NewFiles(parsed)).succeeded == 0 && FilesTally(NewFiles(parsed)).lost == 0
  {
    if parsed != [] {
      NewTally(parsed[..|parsed| - 1]);
      assert NewFiles(parsed)[..|parsed| - 1] == NewFiles(parsed[..|parsed| - 1]);
    }
  }

  lemma {:induction false} NewShares(parsed: seq<ParsedFile>)
    ensures Shares(parsed).failed == 0 && Shares(parsed).lost == 0
  {
    if parsed != [] {
      NewShares(parsed[..|parsed| - 1]);
    }
  }

  /** The par2 share is that of the files the parser takes for par2: one file's, and of several the sum. */
  lemma {:induction false} SharesAdd(a: seq<ParsedFile>, b: seq<ParsedFile>, p: ParsedFile)
    ensures Shares(a + b) == ParShare(Shares(a).size + Shares(b).size, 0, Shares(a).articles + Shares(b).articles, 0)
    ensures Shares([p]) == if p.parserPar then ParShare(Total(p.segments), 0, |p.segments|, 0) else ParShare(0, 0, 0, 0)
    decreases |b|
  {
    NewShares(a);
    assert [p][..0] == [];
    if b == [] {
      assert a + b == a;
    } else {
      SharesAdd(a, b[..|b| - 1], p);
      assert (a + b)[..|a + b| - 1] == a + b[..|b| - 1];
      NewShares(b);
    }
  }

  /** The key is not empty and used by a queued NZB, or by one in the history unless duplicates are forced. */
  ghost predicate IsDuplicate(b: Books, labels: Labels) {
    && labels.dupKey != ""
    && ((exists n :: n in b.queue && n.labels.dupKey == labels.dupKey)
        || (labels.dupMode != ForceMode && exists n :: n in b.history && n.labels.dupKey == labels.dupKey))
  }

  /** Adding spends an id; unless it is a duplicate the new NZB is first or last in the queue under it. */
  lemma Adds(b: Books, parsed: seq<ParsedFile>, labels: Labels, priority: Priority, paused: bool, top: bool, notifies: bool)
    ensures var after := Effect(b, AddNzb(parsed, labels, priority, paused, top), notifies);
            && after.next == b.next + 1 && after.history == b.history && after.exits == b.exits
            && if IsDuplicate(b, labels) then after.queue == b.queue
               else
                 && |after.queue| == |b.queue| + 1
                 && var n := after.queue[if top then 0 else |b.queue|];
                    && n.id == b.next && IsNew(n, parsed, labels, priority, paused)
                    && after.queue == if top then [n] + b.queue else b.queue + [n]
  {
    NewNzbIsNew(b.next, parsed, labels, priority, paused);
    KeyUsed(b.queue, labels.dupKey);
    KeyUsed(b.history, labels.dupKey);
    hide NewNzb, IsNew;
  }

  lemma KeyUsed(s: seq<Nzb>, key: string)
    ensures HasKey(s, key) <==> exists n :: n in s && n.labels.dupKey == key
  {
    if HasKey(s, key) {
      var i :| 0 <= i < |s| && s[i].labels.dupKey == key;
      assert s[i] in s;
    }
  }

  // ---- Coming back ----

  /** The entry leaves the history, and an NZB enters the queue behind the others under the next id. */
  ghost predicate ComesBack(b: Books, k: nat, after: Books, n: Nzb) {
    && k < |b.history| && after.history == b.history[..k] + b.history[k + 1..]
    && n.id == b.next == after.next - 1 && after.exits == b.exits && after.queue == b.queue + [n]
  }

  /** A returned entry is as it was, but for its pause. */
  lemma ReturnBrings(b: Books, id: nat, notifies: bool)
    requires IndexOf(b.history, id) < |b.history|
    ensures var k, after := IndexOf(b.history, id), Effect(b, Command.HistoryReturn(id), notifies);
            ComesBack(b, k, after, b.history[k].(id := b.next, paused := false))
  {
  }

  /** Of a redownloaded entry every article is undefined again and every file unpaused and unmarked. */
  ghost predicate StartsOver(e: Nzb, n: Nzb) {
    && n == e.(id := n.id, paused := false, health := 1000, files := n.files, tally := n.tally)
    && n.tally == Tally(e.tally.size, e.tally.size, 0, 0, e.tally.articles, 0, 0)
    && |n.files| == |e.files|
    && forall f :: 0 <= f < |e.files| ==>
         && n.files[f].par == e.files[f].par && !n.files[f].paused && !n.files[f].completed
         && |n.files[f].articles| == |e.files[f].articles|
         && forall a :: 0 <= a < |e.files[f].articles| ==>
              n.files[f].articles[a] == Article(e.files[f].articles[a].size, Undefined)
  }

  lemma RedownloadBrings(b: Books, id: nat, notifies: bool)
    requires IndexOf(b.history, id) < |b.history|
    ensures var k, after := IndexOf(b.history, id), Effect(b, Command.HistoryRedownload(id), notifies);
            |after.queue| == |b.queue| + 1 && ComesBack(b, k, after, after.queue[|b.queue|])
              && StartsOver(b.history[k], after.queue[|b.queue|])
  {
  }

  /** A processed entry counts as completed at once, with every file marked, and waits in post-processing if there is any. */
  lemma ProcessCompletes(b: Books, id: nat, notifies: bool)
    requires IndexOf(b.history, id) < |b.history|
    ensures var k, after := IndexOf(b.history, id), Effect(b, Command.HistoryProcess(id), notifies);
            var e := b.history[k];
            var n := if notifies && |after.queue| > 0 then after.queue[|after.queue| - 1]
                     else if |after.history| > 0 then after.history[|after.history| - 1] else e;
            var rest := b.history[..k] + b.history[k + 1..];
            && after.next == b.next + 1 && after.exits == b.exits + [Completed(b.next)]
            && (if notifies then after.queue == b.queue + [n] && after.history == rest
                else after.queue == b.queue && after.history == rest + [n])
            && n == e.(id := b.next, paused := false, reprocess := true, post := true, files := n.files)
            && |n.files| == |e.files| && forall f :: 0 <= f < |e.files| ==> n.files[f] == e.files[f].(completed := true)
  {
    var k := IndexOf(b.history, id);
    var n := Unread(b, k);
    assert AllCompleted(n);
    var q := b.queue + [n];
    assert q[|b.queue| := n.(post := true)] == b.queue + [n.(post := true)];
    assert Without(q, |b.queue|) == b.queue;
    hide AllCompleted, Stalling;
  }

  lemma Forgets(b: Books, id: nat, notifies: bool)
    requires DistinctIds(b.history)
    ensures Effect(b, Command.HistoryDelete(id), notifies) == b.(history := Rest(b.history, [id]))
  {
    WithoutIdIsRest(b.history, id);
  }

  // ---- Reports that count differently ----

  /** A report about an NZB that is not queued, or an article that is finished or failed, changes nothing. */
  lemma LateReport(b: Books, id: ArticleId, outcome: Outcome, notifies: bool)
    requires IndexOf(b.queue, id.nzb) < |b.queue| ==>
               var n := b.queue[IndexOf(b.queue, id.nzb)];
               && id.file < |n.files| && id.seg < |n.files[id.file].articles|
               && n.files[id.file].articles[id.seg].status in {Finished, Failed}
    ensures Reported(b, id, outcome, notifies) == b
  {
  }

  /** A report about an article that does not exist counts it, with no bytes, and settles no article. */
  lemma StrayReport(n: Nzb, f: nat, a: nat, success: bool)
    requires !HasArticle(n, f, a)
    ensures var m := Booked(n, f, a, success);
            && m.tally == n.tally.(succeeded := n.tally.succeeded + (if success then 1 else 0),
                                   lost := n.tally.lost + (if success then 0 else 1))
            && m.par == n.par.(lost := n.par.lost + (if !success && f < |n.files| && n.files[f].par then 1 else 0))
            && |m.files| == |n.files| && forall g :: 0 <= g < |n.files| ==> m.files[g].articles == n.files[g].articles
  {
  }
}
