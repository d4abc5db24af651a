/** The queue, the history and the exits of the coordinator as one value, and the operations on it. */
module Ledger {
  import opened Common
  import opened Inflight
  import opened Queue

  /** How an NZB stops downloading: all files complete, or given up for poor health. */
  datatype Exit = Completed(id: nat) | GivenUp(id: nat)

  /** `stalled` holds the ids that entered the queue without being startable. */
  datatype Books = Books(
    queue: seq<Nzb>, history: seq<Nzb>, next: nat, exits: seq<Exit>, stalled: set<nat>)

  datatype Outcome = Success | Failure | Blocked

  function IndexOf(s: seq<Nzb>, id: nat): (i: nat)
    ensures i <= |s|
    ensures i < |s| ==> s[i].id == id
    ensures forall j :: 0 <= j < i ==> s[j].id != id
  {
    if s == [] then 0
    else if s[0].id == id then 0
    else 1 + IndexOf(s[1..], id)
  }

  function Without(s: seq<Nzb>, i: nat): (r: seq<Nzb>)
    requires i < |s|
    ensures |r| == |s| - 1
  {
    s[..i] + s[i + 1..]
  }

  // ---- What always holds ----

  predicate DistinctIds(s: seq<Nzb>) {
    forall i, j :: 0 <= i < j < |s| ==> s[i].id != s[j].id
  }

  /** Ids are below the next one and name one NZB across queue and history. */
  predicate Identified(queue: seq<Nzb>, history: seq<Nzb>, next: nat) {
    && DistinctIds(queue) && DistinctIds(history)
    && (forall i :: 0 <= i < |queue| ==> queue[i].id < next)
    && (forall i :: 0 <= i < |history| ==> history[i].id < next)
    && (forall i, j :: 0 <= i < |queue| && 0 <= j < |history| ==> queue[i].id != history[j].id)
  }

  predicate AllBalanced(s: seq<Nzb>) {
    forall i :: 0 <= i < |s| ==> Balanced(s[i])
  }

  predicate AllTrusted(s: seq<Nzb>) {
    forall i :: 0 <= i < |s| ==> Trusted(s[i])
  }

  /** What goes to the history has nothing left to download, or is doomed. */
  predicate Shelved(e: Nzb) {
    Doomed(e) || (AllDone(e) && Settled(e))
  }

  predicate AllShelved(s: seq<Nzb>) {
    forall i :: 0 <= i < |s| ==> Shelved(s[i])
  }

  /** An NZB leaves at most once. */
  predicate EachOnce(exits: seq<Exit>) {
    forall i, j :: 0 <= i < j < |exits| ==> exits[i].id != exits[j].id
  }

  /** A queued NZB has not been given up, and once completed it is in post-processing. */
  predicate Placed(n: Nzb, exits: seq<Exit>) {
    && GivenUp(n.id) !in exits
    && (Completed(n.id) in exits ==> n.post && AllCompleted(n))
  }

  predicate ExitsKept(b: Books) {
    && EachOnce(b.exits)
    && (forall k :: 0 <= k < |b.exits| ==> b.exits[k].id < b.next)
    && (forall i :: 0 <= i < |b.queue| ==> Placed(b.queue[i], b.exits))
  }

  predicate Sound(b: Books) {
    && Identified(b.queue, b.history, b.next)
    && AllBalanced(b.queue) && AllBalanced(b.history)
    && AllTrusted(b.queue) && AllShelved(b.history)
    && ExitsKept(b)
  }

  // ---- Elementary changes ----

  lemma IndexUnique(s: seq<Nzb>, i: nat)
    requires DistinctIds(s) && i < |s|
    ensures IndexOf(s, s[i].id) == i
  {
    var j := IndexOf(s, s[i].id);
  }

  /** Replacing or removing an entry moves no other, and a removed id is not found again. */
  lemma IndexStable(queue: seq<Nzb>, history: seq<Nzb>, next: nat, i: nat, m: Nzb)
    requires Identified(queue, history, next) && i < |queue| && m.id == queue[i].id
    ensures IndexOf(queue[i := m], m.id) == i && Identified(queue[i := m], history, next)
    ensures IndexOf(Without(queue, i), m.id) == |queue| - 1
  {
    WithoutIdentified(queue, history, next, i);
    assert queue[i := m][i].id == m.id;
  }

  lemma ReplaceSound(b: Books, i: nat, m: Nzb)
    requires Sound(b) && i < |b.queue| && m.id == b.queue[i].id
    requires Balanced(m) && Trusted(m) && Placed(m, b.exits)
    ensures Sound(b.(queue := b.queue[i := m]))
  {
    hide Balanced, Trusted, Shelved, Placed, EachOnce;
  }

  lemma WithoutIdentified(queue: seq<Nzb>, history: seq<Nzb>, next: nat, i: nat)
    requires Identified(queue, history, next) && i < |queue|
    ensures Identified(Without(queue, i), history, next)
    ensures forall j :: 0 <= j < |queue| - 1 ==> Without(queue, i)[j].id != queue[i].id
  {
  }

  lemma RemoveSound(b: Books, i: nat)
    requires Sound(b) && i < |b.queue|
    ensures Sound(b.(queue := Without(b.queue, i)))
  {
    hide Balanced, Trusted, Shelved, Placed, EachOnce;
    WithoutIdentified(b.queue, b.history, b.next, i);
  }

  lemma ArchiveSound(b: Books, i: nat, m: Nzb)
    requires Sound(b) && i < |b.queue| && m.id == b.queue[i].id && Balanced(m) && Shelved(m)
    ensures Sound(b.(queue := Without(b.queue, i), history := b.history + [m]))
  {
    hide Balanced, Trusted, Shelved, Placed, EachOnce;
    WithoutIdentified(b.queue, b.history, b.next, i);
  }

  predicate NotLeft(exits: seq<Exit>, id: nat) {
    Completed(id) !in exits && GivenUp(id) !in exits
  }

  /** Recording an exit. */
  lemma ExitSound(b: Books, e: Exit)
    requires Sound(b) && e.id < b.next && NotLeft(b.exits, e.id)
    requires forall i :: 0 <= i < |b.queue| && b.queue[i].id == e.id ==>
               e.Completed? && b.queue[i].post && AllCompleted(b.queue[i])
    ensures Sound(b.(exits := b.exits + [e]))
  {
    hide Balanced, AllCompleted, Trusted, Shelved, Identified;
    forall k | 0 <= k < |b.exits|
      ensures b.exits[k].id != e.id
    {
      assert b.exits[k] in b.exits;
      assert b.exits[k] == Completed(b.exits[k].id) || b.exits[k] == GivenUp(b.exits[k].id);
    }
  }

  predicate NoneRunning(n: Nzb) {
    forall f :: 0 <= f < |n.files| ==>
      forall a :: 0 <= a < |n.files[f].articles| ==> n.files[f].articles[a].status != Running
  }

  predicate NoEmptyFile(n: Nzb) {
    forall f :: 0 <= f < |n.files| ==> n.files[f].articles != []
  }

  /** There is something to download, no article is running and every file has an article. */
  predicate Startable(n: Nzb) {
    NoneRunning(n) && !AllDone(n) && NoEmptyFile(n)
  }

  function Stalling(n: Nzb, stalled: set<nat>): set<nat> {
    if Startable(n) then stalled else stalled + {n.id}
  }

  /** An NZB enters the queue under the next id. */
  function Enter(b: Books, n: Nzb, top: bool): Books {
    b.(queue := if top then [n] + b.queue else b.queue + [n], next := b.next + 1, stalled := Stalling(n, b.stalled))
  }

  lemma FreshPlaced(b: Books, n: Nzb)
    requires Sound(b) && n.id == b.next
    ensures Placed(n, b.exits) && NotLeft(b.exits, n.id)
  {
    assert forall k :: 0 <= k < |b.exits| ==> b.exits[k] != GivenUp(n.id) && b.exits[k] != Completed(n.id);
  }

  lemma EnterSound(b: Books, n: Nzb, top: bool)
    requires Sound(b) && n.id == b.next && Balanced(n) && Trusted(n)
    ensures Sound(Enter(b, n, top))
  {
    FreshPlaced(b, n);
    hide Balanced, Trusted, Shelved, Stalling, Placed;
    var after := Enter(b, n, top);
    forall i | 0 <= i < |after.queue|
      ensures Placed(after.queue[i], b.exits) && Balanced(after.queue[i]) && Trusted(after.queue[i])
    {
      var j := if top then i - 1 else i;
      assert 0 <= j < |b.queue| ==> after.queue[i] == b.queue[j];
    }
    EnterIdentified(b, n, top);
    hide Identified, EachOnce;
  }

  lemma EnterIdentified(b: Books, n: Nzb, top: bool)
    requires Identified(b.queue, b.history, b.next) && n.id == b.next
    ensures Identified(Enter(b, n, top).queue, b.history, b.next + 1)
  {
  }

  ghost function StalledIds(queue: seq<Nzb>): set<nat> {
    set i | 0 <= i < |queue| && !Startable(queue[i]) :: queue[i].id
  }

  /** A restored queue and history start with sound books. */
  lemma RestoredSound(queue: seq<Nzb>, history: seq<Nzb>, next: nat)
    requires Identified(queue, history, next) && AllBalanced(queue) && AllBalanced(history)
    requires AllTrusted(queue) && AllShelved(history)
    ensures Sound(Books(queue, history, next, [], StalledIds(queue)))
  {
    hide Balanced, Trusted, Shelved;
  }

  lemma SkipIdSound(b: Books)
    requires Sound(b)
    ensures Sound(b.(next := b.next + 1))
  {
    hide Balanced, Trusted, Shelved, Placed, EachOnce;
  }

  lemma ForgetSound(b: Books, k: nat)
    requires Sound(b) && k < |b.history|
    ensures Sound(b.(history := Without(b.history, k)))
  {
    hide Balanced, Trusted, Shelved, Placed, EachOnce;
  }

  // ---- Completion ----

  /** check_file_completion. */
  function CloseFile(n: Nzb, f: nat): (m: Nzb)
    ensures m.id == n.id && |m.files| == |n.files|
  {
    if f < |n.files| && !n.files[f].completed && AllTerminal(n.files[f])
    then WithFile(n, f, n.files[f].(completed := true)) else n
  }

  /** check_nzb_completion: without a post-processor the NZB goes straight to the history. */
  function Finish(b: Books, i: nat, notifies: bool): Books
    requires i < |b.queue|
  {
    var n := b.queue[i];
    if !AllCompleted(n) then b
    else
      var m := n.(post := true);
      var c := b.(exits := b.exits + [Completed(n.id)]);
      if notifies then c.(queue := b.queue[i := m])
      else c.(queue := Without(b.queue, i), history := b.history + [m])
  }

  /** check_health_failure. */
  function GiveUp(b: Books, i: nat): Books
    requires i < |b.queue|
  {
    b.(queue := Without(b.queue, i), history := b.history + [b.queue[i]],
       exits := b.exits + [GivenUp(b.queue[i].id)])
  }

  /** The NZB after one article succeeded or failed. */
  function Booked(n: Nzb, f: nat, a: nat, success: bool): (m: Nzb)
    ensures m.id == n.id && |m.files| == |n.files|
  {
    if !HasArticle(n, f, a) then Strayed(n, f, success)
    else if success then Received(n, f, a)
    else Missed(n, f, a)
  }

  /** Health first: an NZB beyond repair is given up before its completion is looked at. */
  function Judged(b: Books, i: nat, f: nat, notifies: bool): Books
    requires i < |b.queue|
  {
    var m := WithHealth(b.queue[i]);
    if Hopeless(m) then GiveUp(b.(queue := b.queue[i := m]), i)
    else Finish(b.(queue := b.queue[i := CloseFile(m, f)]), i, notifies)
  }

  function AfterArticle(n: Nzb, f: nat, a: nat, success: bool): Nzb {
    WithHealth(Booked(n, f, a, success))
  }

  /** The article is there and finished or failed already. */
  predicate IsTerminal(n: Nzb, f: nat, a: nat) {
    HasArticle(n, f, a) && Terminal(ArticleAt(n, f, a).status)
  }

  /** handle_download_complete, as far as queue, history and exits go. */
  function Reported(b: Books, id: ArticleId, outcome: Outcome, notifies: bool): Books {
    var i := IndexOf(b.queue, id.nzb);
    if i == |b.queue| || IsTerminal(b.queue[i], id.file, id.seg) then b
    else if outcome == Blocked then
      if HasArticle(b.queue[i], id.file, id.seg)
      then b.(queue := b.queue[i := Relabel(b.queue[i], id.file, id.seg, Undefined)]) else b
    else
      var m := Booked(b.queue[i], id.file, id.seg, outcome == Success);
      Judged(b.(queue := b.queue[i := m]), i, id.file, notifies)
  }

  /** The reported article exists if its NZB is queued. */
  predicate Known(queue: seq<Nzb>, id: ArticleId) {
    var i := IndexOf(queue, id.nzb);
    i < |queue| ==> HasArticle(queue[i], id.file, id.seg)
  }

  /** The article exists in the queue and is neither finished nor failed. */
  predicate IsOpen(queue: seq<Nzb>, id: ArticleId) {
    var i := IndexOf(queue, id.nzb);
    i < |queue| && HasArticle(queue[i], id.file, id.seg) && !Terminal(ArticleAt(queue[i], id.file, id.seg).status)
  }

  lemma CloseFileBalanced(n: Nzb, f: nat)
    requires Balanced(n)
    ensures Balanced(CloseFile(n, f))
  {
    FlagsBalanced(n, CloseFile(n, f));
  }

  /** With all marks set, what can be trusted is finished or doomed. */
  lemma CompletedShelved(n: Nzb)
    requires Trusted(n) && AllCompleted(n)
    ensures Shelved(n)
  {
  }

  /** Doom and the marks do not depend on these flags. */
  lemma FlagsTrusted(n: Nzb, m: Nzb)
    requires m.tally == n.tally && m.par == n.par && m.files == n.files
    ensures Trusted(m) <==> Trusted(n)
    ensures Shelved(m) <==> Shelved(n)
    ensures AllCompleted(m) <==> AllCompleted(n)
  {
    assert Doomed(m) <==> Doomed(n) by {
      hide Health, CriticalHealth;
    }
    hide Doomed, AllTerminal;
  }

  lemma FinishSound(b: Books, i: nat, notifies: bool)
    requires Sound(b) && i < |b.queue| && Completed(b.queue[i].id) !in b.exits
    ensures Sound(Finish(b, i, notifies))
  {
    var n := b.queue[i];
    if AllCompleted(n) {
      var m := n.(post := true);
      assert Balanced(m);
      FlagsTrusted(n, m);
      CompletedShelved(n);
      hide Balanced, Settled, AllCompleted, Trusted, Shelved;
      assert Placed(n, b.exits) && Placed(m, b.exits);
      hide Identified, AllBalanced, AllTrusted, AllShelved, ExitsKept;
      var e := Completed(n.id);
      var q, h := b.queue[i := m], b.history + [m];
      if notifies {
        ReplaceSound(b, i, m);
        var c := b.(queue := q);
        IndexStable(b.queue, b.history, b.next, i, m);
        OnlyOne(c, i);
        ExitSound(c, e);
        assert Finish(b, i, notifies) == c.(exits := b.exits + [e]);
      } else {
        ArchiveSound(b, i, m);
        var c := b.(queue := Without(b.queue, i), history := h);
        WithoutIdentified(b.queue, b.history, b.next, i);
        OnlyOne(b, i);
        ExitSound(c, e);
        assert Finish(b, i, notifies) == c.(exits := b.exits + [e]);
      }
    }
  }

  lemma OnlyOne(b: Books, i: nat)
    requires Sound(b) && i < |b.queue|
    ensures b.queue[i].id < b.next && GivenUp(b.queue[i].id) !in b.exits
    ensures forall j :: 0 <= j < |b.queue| && b.queue[j].id == b.queue[i].id ==> j == i
  {
    hide Balanced, Trusted, Shelved;
    assert Placed(b.queue[i], b.exits);
  }

  /** The same NZB up to flags that no account depends on. */
  predicate Cosmetic(n: Nzb, m: Nzb) {
    && m.id == n.id && SameAccounts(n, m) && m.par == n.par && (n.post ==> m.post)
    && forall i :: 0 <= i < |n.files| ==> m.files[i].completed == n.files[i].completed
  }

  lemma CosmeticKeeps(n: Nzb, m: Nzb, exits: seq<Exit>)
    requires Cosmetic(n, m) && Trusted(n) && Placed(n, exits)
    ensures Trusted(m) && Placed(m, exits)
  {
    assert Settled(n) ==> Settled(m);
  }

  lemma CosmeticSound(b: Books, i: nat, m: Nzb)
    requires Sound(b) && i < |b.queue| && Cosmetic(b.queue[i], m)
    ensures Sound(b.(queue := b.queue[i := m]))
  {
    FlagsBalanced(b.queue[i], m);
    CosmeticKeeps(b.queue[i], m, b.exits);
    hide Balanced, Trusted, Placed;
    ReplaceSound(b, i, m);
  }

  // ---- Moving ----

  function Inserted(s: seq<Nzb>, k: nat, n: Nzb): seq<Nzb>
    requires k <= |s|
  {
    s[..k] + [n] + s[k..]
  }

  lemma MoveSound(b: Books, i: nat, k: nat)
    requires Sound(b) && i < |b.queue| && k < |b.queue|
    ensures Sound(b.(queue := Inserted(Without(b.queue, i), k, b.queue[i])))
  {
    hide Balanced, Trusted, Shelved, Placed, EachOnce;
    var rest := Without(b.queue, i);
    WithoutIdentified(b.queue, b.history, b.next, i);
    var moved := Inserted(rest, k, b.queue[i]);
    forall j | 0 <= j < |moved|
      ensures exists l :: 0 <= l < |b.queue| && moved[j] == b.queue[l]
    {
      if j != k {
        var r := if j < k then j else j - 1;
        assert moved[j] == rest[r];
        assert rest[r] == b.queue[if r < i then r else r + 1];
      }
    }
    hide Without, Inserted;
    assert Identified(moved, b.history, b.next) by {
      InsertedIdentified(rest, b.history, b.next, k, b.queue[i]);
    }
  }

  lemma InsertedIdentified(s: seq<Nzb>, history: seq<Nzb>, next: nat, k: nat, n: Nzb)
    requires Identified(s, history, next) && k <= |s| && n.id < next
    requires forall i :: 0 <= i < |s| ==> s[i].id != n.id
    requires forall i :: 0 <= i < |history| ==> history[i].id != n.id
    ensures Identified(Inserted(s, k, n), history, next)
  {
  }

  lemma MovePermutes(s: seq<Nzb>, i: nat, k: nat)
    requires i < |s| && k < |s|
    ensures multiset(Inserted(Without(s, i), k, s[i])) == multiset(s)
  {
    var rest := Without(s, i);
    assert multiset(rest) == multiset(rest[..k]) + multiset(rest[k..]) by {
      assert rest == rest[..k] + rest[k..];
    }
    assert multiset(s) == multiset(rest) + multiset{s[i]} by {
      assert s == s[..i] + [s[i]] + s[i + 1..];
    }
  }

  /** Giving up an NZB as it stands after its last report. */
  lemma GiveUpSound(b: Books, i: nat, m: Nzb)
    requires Sound(b) && i < |b.queue| && m.id == b.queue[i].id && Balanced(m) && Doomed(m)
    requires Completed(m.id) !in b.exits
    ensures Sound(GiveUp(b.(queue := b.queue[i := m]), i))
  {
    OnlyOne(b, i);
    assert Shelved(m);
    hide Balanced, Trusted, Shelved, Doomed, EachOnce, Placed;
    ArchiveSound(b, i, m);
    assert Without(b.queue[i := m], i) == Without(b.queue, i);
    var c := b.(queue := Without(b.queue, i), history := b.history + [m]);
    WithoutIdentified(b.queue, b.history, b.next, i);
    hide Sound;
    ExitSound(c, GivenUp(m.id));
  }

  lemma AfterArticleBalanced(n: Nzb, f: nat, a: nat, success: bool)
    requires Balanced(n) && HasArticle(n, f, a) && !Terminal(ArticleAt(n, f, a).status)
    ensures Balanced(AfterArticle(n, f, a, success))
  {
    if success {
      ReceivedBalanced(n, f, a);
    } else {
      MissedBalanced(n, f, a);
    }
  }

  /** Booking an article and then looking at its file keeps the completion marks exact. */
  lemma AfterArticleSettled(n: Nzb, f: nat, a: nat, success: bool)
    requires Settled(n) && HasArticle(n, f, a) && !Terminal(ArticleAt(n, f, a).status)
    ensures Settled(CloseFile(AfterArticle(n, f, a, success), f))
  {
    hide TallySuccess, TallyFailure, Health, CriticalHealth;
    assert !n.files[f].completed;
  }

  /** What a report leaves in the queue can be trusted, and what it gives up was doomed or becomes so. */
  lemma AfterArticleTrusted(n: Nzb, f: nat, a: nat, success: bool)
    requires Trusted(n) && HasArticle(n, f, a) && !Terminal(ArticleAt(n, f, a).status)
    ensures var m := AfterArticle(n, f, a, success);
            && (Doomed(n) ==> Hopeless(m)) && (Hopeless(m) ==> Doomed(m))
            && (!Hopeless(m) ==> Settled(CloseFile(m, f)) && Trusted(CloseFile(m, f)))
  {
    if Doomed(n) {
      BookedStaysDoomed(n, f, a);
    } else {
      AfterArticleSettled(n, f, a, success);
    }
    hide Settled, AllTerminal, HasArticle;
  }

  lemma BookedPlaced(n: Nzb, f: nat, a: nat, success: bool, exits: seq<Exit>)
    requires Placed(n, exits) && Completed(n.id) !in exits
    ensures Placed(CloseFile(AfterArticle(n, f, a, success), f), exits)
  {
  }

  lemma RelabelTrusted(n: Nzb, f: nat, a: nat, s: ArticleStatus)
    requires Trusted(n) && HasArticle(n, f, a) && !Terminal(ArticleAt(n, f, a).status) && !Terminal(s)
    ensures Trusted(Relabel(n, f, a, s))
  {
    var m := Relabel(n, f, a, s);
    assert Doomed(m) <==> Doomed(n);
    assert m.files[f].articles[a].status == s;
    hide Doomed;
  }

  lemma RelabelPlaced(n: Nzb, f: nat, a: nat, s: ArticleStatus, exits: seq<Exit>)
    requires Placed(n, exits) && HasArticle(n, f, a)
    ensures Placed(Relabel(n, f, a, s), exits)
  {
    RelabelCompleted(n, f, a, s);
    hide AllCompleted;
  }

  lemma RelabelCompleted(n: Nzb, f: nat, a: nat, s: ArticleStatus)
    requires HasArticle(n, f, a)
    ensures AllCompleted(Relabel(n, f, a, s)) <==> AllCompleted(n)
  {
    var m := Relabel(n, f, a, s);
    assert forall g :: 0 <= g < |n.files| ==> m.files[g].completed == n.files[g].completed;
  }

  /** Every report on an existing article of an NZB that has not completed keeps the books sound. */
  lemma ReportedSound(b: Books, id: ArticleId, outcome: Outcome, notifies: bool)
    requires Sound(b) && Known(b.queue, id)
    requires IsOpen(b.queue, id) ==> Completed(id.nzb) !in b.exits
    ensures Sound(Reported(b, id, outcome, notifies))
  {
    var i := IndexOf(b.queue, id.nzb);
    if IsOpen(b.queue, id) {
      var n := b.queue[i];
      assert Balanced(n) && Trusted(n) && Placed(n, b.exits);
      if outcome == Blocked {
        RelabelBalanced(n, id.file, id.seg, Undefined);
        RelabelTrusted(n, id.file, id.seg, Undefined);
        RelabelPlaced(n, id.file, id.seg, Undefined, b.exits);
        hide Sound, Trusted, Placed, Balanced;
        ReplaceSound(b, i, Relabel(n, id.file, id.seg, Undefined));
      } else {
        var m := AfterArticle(n, id.file, id.seg, outcome == Success);
        AfterArticleBalanced(n, id.file, id.seg, outcome == Success);
        AfterArticleTrusted(n, id.file, id.seg, outcome == Success);
        BookedPlaced(n, id.file, id.seg, outcome == Success, b.exits);
        JudgeSound(b, i, id.file, id.seg, outcome == Success, notifies);
      }
    }
  }

  lemma JudgeSound(b: Books, i: nat, f: nat, a: nat, success: bool, notifies: bool)
    requires Sound(b) && i < |b.queue| && Completed(b.queue[i].id) !in b.exits
    requires var m := AfterArticle(b.queue[i], f, a, success);
             && Balanced(m) && (Hopeless(m) ==> Doomed(m))
             && (!Hopeless(m) ==> Trusted(CloseFile(m, f))) && Placed(CloseFile(m, f), b.exits)
    ensures Sound(Judged(b.(queue := b.queue[i := Booked(b.queue[i], f, a, success)]), i, f, notifies))
  {
    hide Sound, Trusted, Placed, Balanced, Doomed, Hopeless, Booked, CloseFile, WithHealth, Finish;
    var m := AfterArticle(b.queue[i], f, a, success);
    var c := b.(queue := b.queue[i := Booked(b.queue[i], f, a, success)]);
    assert c.queue[i := m] == b.queue[i := m];
    assert c.queue[i := CloseFile(m, f)] == b.queue[i := CloseFile(m, f)];
    if Hopeless(m) {
      GiveUpSound(b, i, m);
    } else {
      CloseFileBalanced(m, f);
      ReplaceSound(b, i, CloseFile(m, f));
      FinishSound(b.(queue := b.queue[i := CloseFile(m, f)]), i, notifies);
    }
  }
}
