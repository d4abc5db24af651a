/** Articles, files and NZBs of the download queue, with their size and article accounts. */
module Queue {
  import opened Common
  import opened Numbers

  datatype ArticleStatus = Undefined | Running | Finished | Failed

  datatype Priority = VeryLow | Low | Normal | High | VeryHigh | Force

  datatype ArticleId = ArticleId(nzb: nat, file: nat, seg: nat)

  datatype Article = Article(size: nat, status: ArticleStatus)

  /** The size and article counters that a file and an NZB both carry. */
  datatype Tally = Tally(
    size: nat, remaining: nat, success: nat, failed: nat,
    articles: nat, succeeded: nat, lost: nat)

  /** `par` is what is_par_file says of the file name. */
  datatype File = File(
    par: bool, paused: bool, completed: bool, articles: seq<Article>, tally: Tally)

  /** The par2 share of the accounts, kept since the NZB was added. */
  datatype ParShare = ParShare(size: nat, failed: nat, articles: nat, lost: nat)

  datatype DupMode = ScoreMode | AllMode | ForceMode

  /** What an NZB is called and how duplicates of it are treated. */
  datatype Labels = Labels(
    name: string, category: string, dupKey: string, dupScore: int, dupMode: DupMode, parameters: seq<(string, string)>)

  /** `post` says whether post_info is present. */
  datatype Nzb = Nzb(
    id: nat, labels: Labels, priority: Priority, paused: bool, post: bool, reprocess: bool,
    health: nat, critical: nat, par: ParShare, files: seq<File>, tally: Tally)

  function Rank(p: Priority): int {
    match p
    case VeryLow => -100
    case Low => -50
    case Normal => 0
    case High => 50
    case VeryHigh => 100
    case Force => 900
  }

  predicate Terminal(s: ArticleStatus) {
    s == Finished || s == Failed
  }

  // ---- What the accounts must say ----

  const NOTHING := Tally(0, 0, 0, 0, 0, 0, 0)

  function Plus(a: Tally, b: Tally): Tally {
    Tally(a.size + b.size, a.remaining + b.remaining, a.success + b.success, a.failed + b.failed,
          a.articles + b.articles, a.succeeded + b.succeeded, a.lost + b.lost)
  }

  /** What one article contributes. */
  function Entry(a: Article): Tally {
    match a.status
    case Finished => Tally(a.size, 0, a.size, 0, 1, 1, 0)
    case Failed => Tally(a.size, 0, 0, a.size, 1, 0, 1)
    case _ => Tally(a.size, a.size, 0, 0, 1, 0, 0)
  }

  function ArticlesTally(s: seq<Article>): Tally {
    if s == [] then NOTHING else Plus(ArticlesTally(s[..|s| - 1]), Entry(s[|s| - 1]))
  }

  function FilesTally(s: seq<File>): Tally {
    if s == [] then NOTHING else Plus(FilesTally(s[..|s| - 1]), s[|s| - 1].tally)
  }

  /** The counters of a file are the sums over its articles. */
  predicate FileBalanced(f: File) {
    f.tally == ArticlesTally(f.articles)
  }

  /** The counters of an NZB are the sums over its files; one restored without files only conserves. */
  predicate Balanced(n: Nzb) {
    && (if n.files == [] then Conserved(n.tally) else n.tally == FilesTally(n.files))
    && forall i :: 0 <= i < |n.files| ==> FileBalanced(n.files[i])
  }

  predicate Conserved(t: Tally) {
    t.size == t.success + t.failed + t.remaining && t.succeeded + t.lost <= t.articles
  }

  predicate AllTerminal(f: File) {
    forall i :: 0 <= i < |f.articles| ==> Terminal(f.articles[i].status)
  }

  predicate AllDone(n: Nzb) {
    forall i :: 0 <= i < |n.files| ==> AllTerminal(n.files[i])
  }

  /** A file with articles is marked complete exactly when it has nothing left to download. */
  predicate Settled(n: Nzb) {
    forall i :: 0 <= i < |n.files| && n.files[i].articles != [] ==> (n.files[i].completed <==> AllTerminal(n.files[i]))
  }

  predicate AllCompleted(n: Nzb) {
    forall i :: 0 <= i < |n.files| ==> n.files[i].completed
  }

  predicate HasArticle(n: Nzb, f: nat, a: nat) {
    f < |n.files| && a < |n.files[f].articles|
  }

  function ArticleAt(n: Nzb, f: nat, a: nat): Article
    requires HasArticle(n, f, a)
  {
    n.files[f].articles[a]
  }

  /** The NZB with one file replaced. */
  function WithFile(n: Nzb, f: nat, file: File): (m: Nzb)
    requires f < |n.files|
    ensures m.id == n.id && |m.files| == |n.files|
  {
    n.(files := n.files[f := file])
  }

  function WithStatus(file: File, a: nat, s: ArticleStatus): File
    requires a < |file.articles|
  {
    file.(articles := file.articles[a := file.articles[a].(status := s)])
  }

  function Relabel(n: Nzb, f: nat, a: nat, s: ArticleStatus): (m: Nzb)
    requires HasArticle(n, f, a)
    ensures m.id == n.id && |m.files| == |n.files|
  {
    WithFile(n, f, WithStatus(n.files[f], a, s))
  }

  // ---- Updating one summand ----

  lemma {:induction false} ArticlesTallyUpdate(s: seq<Article>, i: nat, b: Article)
    requires i < |s|
    ensures Plus(ArticlesTally(s[i := b]), Entry(s[i])) == Plus(ArticlesTally(s), Entry(b))
  {
    hide Entry;
    var last := |s| - 1;
    if i == last {
      assert s[i := b][..last] == s[..last];
    } else {
      ArticlesTallyUpdate(s[..last], i, b);
      assert s[i := b][..last] == s[..last][i := b];
    }
  }

  lemma {:induction false} FilesTallyUpdate(s: seq<File>, i: nat, g: File)
    requires i < |s|
    ensures Plus(FilesTally(s[i := g]), s[i].tally) == Plus(FilesTally(s), g.tally)
  {
    var last := |s| - 1;
    if i == last {
      assert s[i := g][..last] == s[..last];
    } else {
      FilesTallyUpdate(s[..last], i, g);
      assert s[i := g][..last] == s[..last][i := g];
    }
  }

  // ---- Conservation ----

  lemma {:induction false} ArticlesConserved(s: seq<Article>)
    ensures Conserved(ArticlesTally(s)) && ArticlesTally(s).articles == |s|
  {
    if s != [] {
      ArticlesConserved(s[..|s| - 1]);
    }
  }

  lemma FileConserved(f: File)
    requires FileBalanced(f)
    ensures Conserved(f.tally)
  {
    ArticlesConserved(f.articles);
  }

  lemma PlusConserved(a: Tally, b: Tally)
    requires Conserved(a) && Conserved(b)
    ensures Conserved(Plus(a, b))
  {
  }

  lemma {:induction false} FilesConserved(s: seq<File>)
    requires forall i :: 0 <= i < |s| ==> FileBalanced(s[i])
    ensures Conserved(FilesTally(s))
  {
    hide FileBalanced, Conserved, Plus;
    if s == [] {
      PlusZero();
    } else {
      FilesConserved(s[..|s| - 1]);
      FileConserved(s[|s| - 1]);
      PlusConserved(FilesTally(s[..|s| - 1]), s[|s| - 1].tally);
    }
  }

  lemma PlusZero()
    ensures Conserved(NOTHING)
  {
  }

  // ---- What the counters count ----

  ghost function SizeWith(s: seq<Article>, statuses: set<ArticleStatus>): nat {
    if s == [] then 0
    else SizeWith(s[..|s| - 1], statuses) + if s[|s| - 1].status in statuses then s[|s| - 1].size else 0
  }

  ghost function CountWith(s: seq<Article>, statuses: set<ArticleStatus>): nat {
    if s == [] then 0 else CountWith(s[..|s| - 1], statuses) + if s[|s| - 1].status in statuses then 1 else 0
  }

  /** Sizes and numbers of the articles by what became of them. */
  lemma {:induction false} TallyMeans(s: seq<Article>)
    ensures var t := ArticlesTally(s);
            && t.size == SizeWith(s, {Undefined, Running, Finished, Failed}) && t.remaining == SizeWith(s, {Undefined, Running})
            && t.success == SizeWith(s, {Finished}) && t.failed == SizeWith(s, {Failed})
            && t.articles == |s| && t.succeeded == CountWith(s, {Finished}) && t.lost == CountWith(s, {Failed})
  {
    if s != [] {
      TallyMeans(s[..|s| - 1]);
    }
  }

  /** The articles of all files, one after another. */
  ghost function AllArticles(files: seq<File>): seq<Article> {
    if files == [] then [] else AllArticles(files[..|files| - 1]) + files[|files| - 1].articles
  }

  lemma {:induction false} TallyOfBoth(s: seq<Article>, t: seq<Article>)
    ensures ArticlesTally(s + t) == Plus(ArticlesTally(s), ArticlesTally(t))
    decreases |t|
  {
    if t == [] {
      assert s + t == s;
    } else {
      hide Plus, ArticlesTally;
      var rest, last := t[..|t| - 1], t[|t| - 1];
      TallyOfBoth(s, rest);
      TallyPush(s + rest, last);
      TallyPush(rest, last);
      PlusAssociates(ArticlesTally(s), ArticlesTally(rest), Entry(last));
      assert t == rest + [last] && s + t == s + rest + [last];
    }
  }

  lemma TallyPush(s: seq<Article>, a: Article)
    ensures ArticlesTally(s + [a]) == Plus(ArticlesTally(s), Entry(a))
  {
    hide Plus, Entry;
    assert (s + [a])[..|s|] == s;
  }

  lemma PlusAssociates(a: Tally, b: Tally, c: Tally)
    ensures Plus(Plus(a, b), c) == Plus(a, Plus(b, c))
  {
  }

  /** The account of the files is that of all their articles together. */
  lemma {:induction false} FilesTallyMeans(files: seq<File>)
    requires forall i :: 0 <= i < |files| ==> FileBalanced(files[i])
    ensures FilesTally(files) == ArticlesTally(AllArticles(files))
  {
    hide Plus, ArticlesTally;
    if files == [] {
      NoArticles();
    } else {
      var n := |files| - 1;
      FilesTallyMeans(files[..n]);
      assert FileBalanced(files[n]);
      TallyOfBoth(AllArticles(files[..n]), files[n].articles);
    }
  }

  lemma NoArticles()
    ensures ArticlesTally([]) == NOTHING
  {
  }

  // ---- One article reported ----

  function TallySuccess(t: Tally, z: nat): Tally {
    t.(success := t.success + z, remaining := Less(t.remaining, z), succeeded := t.succeeded + 1)
  }

  function TallyFailure(t: Tally, z: nat): Tally {
    t.(failed := t.failed + z, remaining := Less(t.remaining, z), lost := t.lost + 1)
  }

  function Received(n: Nzb, f: nat, a: nat): (m: Nzb)
    requires HasArticle(n, f, a)
    ensures m.id == n.id && |m.files| == |n.files|
  {
    var z := ArticleAt(n, f, a).size;
    var file := WithStatus(n.files[f], a, Finished);
    WithFile(n, f, file.(tally := TallySuccess(file.tally, z))).(tally := TallySuccess(n.tally, z))
  }

  function Missed(n: Nzb, f: nat, a: nat): (m: Nzb)
    requires HasArticle(n, f, a)
    ensures m.id == n.id && |m.files| == |n.files|
  {
    var z := ArticleAt(n, f, a).size;
    var file := WithStatus(n.files[f], a, Failed);
    WithFile(n, f, file.(tally := TallyFailure(file.tally, z)))
    .(tally := TallyFailure(n.tally, z),
      par := if file.par then n.par.(failed := n.par.failed + z, lost := n.par.lost + 1) else n.par)
  }

  /** A report about an article that does not exist still counts, with size zero. */
  function Strayed(n: Nzb, f: nat, success: bool): (m: Nzb)
    ensures m.id == n.id && |m.files| == |n.files|
  {
    var files := if f < |n.files| then n.files[f := n.files[f].(tally := Counted(n.files[f].tally, success))] else n.files;
    n.(files := files, tally := Counted(n.tally, success),
       par := if !success && f < |n.files| && n.files[f].par then n.par.(lost := n.par.lost + 1) else n.par)
  }

  function Counted(t: Tally, success: bool): Tally {
    if success then TallySuccess(t, 0) else TallyFailure(t, 0)
  }

  /** What is left to download covers every article that is not yet settled. */
  lemma {:induction false} OpenArticleRemains(s: seq<Article>, i: nat)
    requires i < |s| && !Terminal(s[i].status)
    ensures s[i].size <= ArticlesTally(s).remaining
  {
    var last := |s| - 1;
    if i < last {
      OpenArticleRemains(s[..last], i);
    }
  }

  lemma {:induction false} FileRemains(s: seq<File>, i: nat)
    requires i < |s|
    ensures s[i].tally.remaining <= FilesTally(s).remaining
  {
    var last := |s| - 1;
    if i < last {
      FileRemains(s[..last], i);
    }
  }

  /** No saturating subtraction of an account ever clips. */
  lemma NothingClips(n: Nzb, f: nat, a: nat)
    requires Balanced(n) && HasArticle(n, f, a) && !Terminal(ArticleAt(n, f, a).status)
    ensures ArticleAt(n, f, a).size <= n.files[f].tally.remaining <= n.tally.remaining
  {
    assert FileBalanced(n.files[f]);
    OpenArticleRemains(n.files[f].articles, a);
    FileRemains(n.files, f);
  }

  lemma FileReceived(file: File, a: nat)
    requires FileBalanced(file) && a < |file.articles| && !Terminal(file.articles[a].status)
    ensures FileBalanced(WithStatus(file, a, Finished).(tally := TallySuccess(file.tally, file.articles[a].size)))
  {
    hide ArticlesTally;
    OpenArticleRemains(file.articles, a);
    ArticlesTallyUpdate(file.articles, a, file.articles[a].(status := Finished));
  }

  lemma FileMissed(file: File, a: nat)
    requires FileBalanced(file) && a < |file.articles| && !Terminal(file.articles[a].status)
    ensures FileBalanced(WithStatus(file, a, Failed).(tally := TallyFailure(file.tally, file.articles[a].size)))
  {
    hide ArticlesTally;
    OpenArticleRemains(file.articles, a);
    ArticlesTallyUpdate(file.articles, a, file.articles[a].(status := Failed));
  }

  lemma ReceivedBalanced(n: Nzb, f: nat, a: nat)
    requires Balanced(n) && HasArticle(n, f, a) && !Terminal(ArticleAt(n, f, a).status)
    ensures Balanced(Received(n, f, a))
  {
    NothingClips(n, f, a);
    hide FilesTally;
    FileReceived(n.files[f], a);
    FilesTallyUpdate(n.files, f, Received(n, f, a).files[f]);
    hide FileBalanced;
  }

  lemma MissedBalanced(n: Nzb, f: nat, a: nat)
    requires Balanced(n) && HasArticle(n, f, a) && !Terminal(ArticleAt(n, f, a).status)
    ensures Balanced(Missed(n, f, a))
  {
    NothingClips(n, f, a);
    hide FilesTally;
    FileMissed(n.files[f], a);
    FilesTallyUpdate(n.files, f, Missed(n, f, a).files[f]);
    hide FileBalanced;
  }

  lemma {:induction false} SameTallies(s: seq<File>, t: seq<File>)
    requires |s| == |t| && forall i :: 0 <= i < |s| ==> s[i].tally == t[i].tally
    ensures FilesTally(s) == FilesTally(t)
  {
    hide Plus;
    if s != [] {
      SameTallies(s[..|s| - 1], t[..|t| - 1]);
    }
  }

  /** The same articles and counters; flags may differ. */
  predicate SameAccounts(n: Nzb, m: Nzb) {
    && m.tally == n.tally && |m.files| == |n.files|
    && forall i :: 0 <= i < |n.files| ==>
         m.files[i].articles == n.files[i].articles && m.files[i].tally == n.files[i].tally
  }

  lemma FlagsBalanced(n: Nzb, m: Nzb)
    requires Balanced(n) && SameAccounts(n, m)
    ensures Balanced(m)
  {
    SameTallies(n.files, m.files);
    hide ArticlesTally, FilesTally;
    assert forall i :: 0 <= i < |n.files| ==> FileBalanced(n.files[i]);
  }

  /** Moving an article between the two open states changes no account. */
  lemma RelabelBalanced(n: Nzb, f: nat, a: nat, s: ArticleStatus)
    requires Balanced(n) && HasArticle(n, f, a)
    requires !Terminal(ArticleAt(n, f, a).status) && !Terminal(s)
    ensures Balanced(Relabel(n, f, a, s))
  {
    hide FilesTally, ArticlesTally;
    var file := n.files[f];
    assert FileBalanced(file);
    ArticlesTallyUpdate(file.articles, a, file.articles[a].(status := s));
    FilesTallyUpdate(n.files, f, WithStatus(file, a, s));
  }

  // ---- Health ----

  /** Health is the whole number of per mille of the articles that are not lost, critical health of those not repairable. */
  lemma HealthMeans(articles: nat, lost: nat, parSize: nat, parFailed: nat)
    requires articles > 0 && parSize > 0
    ensures var h := Health(articles, lost);
            articles * h <= 1000 * (if lost < articles then articles - lost else 0) < articles * (h + 1)
    ensures var c, r := CriticalHealth(articles, parSize, parFailed), Repairable(articles, parSize, parFailed);
            articles * c <= 1000 * (if r < articles then articles - r else 0) < articles * (c + 1)
    ensures var r, left := Repairable(articles, parSize, parFailed), if parFailed < parSize then parSize - parFailed else 0;
            parSize * r <= articles / 10 * left < parSize * (r + 1)
  {
    var r := Repairable(articles, parSize, parFailed);
    QuotientMeans(1000 * Less(articles, lost), articles);
    QuotientMeans(1000 * Less(articles, r), articles);
    QuotientMeans(articles / 10 * Less(parSize, parFailed), parSize);
    hide Quotient;
  }

  lemma QuotientMeans(part: nat, whole: nat)
    requires whole > 0
    ensures whole * Quotient(part, whole) <= part < whole * (Quotient(part, whole) + 1)
  {
    DivideBelow(part, whole, part / whole);
    DivideBelow(part, whole, part / whole + 1);
  }

  function Quotient(part: nat, whole: nat): nat
    requires whole > 0
  {
    part / whole
  }

  /** Per mille of the articles that arrived. */
  function Health(articles: nat, lost: nat): nat {
    if articles == 0 then 1000 else Quotient(1000 * Less(articles, lost), articles)
  }

  /** How many articles the intact par2 data is taken to repair. */
  function Repairable(articles: nat, parSize: nat, parFailed: nat): nat
    requires parSize > 0
  {
    Quotient(articles / 10 * Less(parSize, parFailed), parSize)
  }

  function CriticalHealth(articles: nat, parSize: nat, parFailed: nat): nat {
    if articles == 0 || parSize == 0 then 1000
    else Quotient(1000 * Less(articles, Repairable(articles, parSize, parFailed)), articles)
  }

  function DataArticles(n: Nzb): nat {
    Less(n.tally.articles, n.par.articles)
  }

  function DataLost(n: Nzb): nat {
    Less(n.tally.lost, n.par.lost)
  }

  function WithHealth(n: Nzb): (m: Nzb)
    ensures m.id == n.id && m.files == n.files
  {
    n.(health := Health(DataArticles(n), DataLost(n)),
       critical := CriticalHealth(DataArticles(n), n.par.size, n.par.failed))
  }

  predicate Hopeless(n: Nzb) {
    n.health < n.critical
  }

  /** Judged by its accounts, whatever health was stored last. */
  predicate Doomed(n: Nzb) {
    Hopeless(WithHealth(n))
  }

  /** A file marked complete may only be unread, and a file with nothing left unmarked, when the NZB is doomed. */
  predicate Trusted(n: Nzb) {
    Settled(n) || Doomed(n)
  }

  lemma HealthFalls(articles: nat, lost: nat, more: nat)
    requires lost <= more
    ensures Health(articles, more) <= Health(articles, lost)
  {
    if articles > 0 {
      DivideMonotone(1000 * Less(articles, more), 1000 * Less(articles, lost), articles);
    }
  }

  lemma CriticalRises(articles: nat, size: nat, failed: nat, more: nat)
    requires failed <= more
    ensures CriticalHealth(articles, size, failed) <= CriticalHealth(articles, size, more)
  {
    if articles > 0 && size > 0 {
      TimesMonotone(articles / 10, Less(size, more), Less(size, failed));
      DivideMonotone(articles / 10 * Less(size, more), articles / 10 * Less(size, failed), size);
      var r, s := Repairable(articles, size, failed), Repairable(articles, size, more);
      DivideMonotone(1000 * Less(articles, r), 1000 * Less(articles, s), articles);
    }
  }

  /** No report saves a doomed NZB. */
  lemma DoomStays(n: Nzb, m: Nzb)
    requires Doomed(n) && DataArticles(m) == DataArticles(n) && DataLost(m) >= DataLost(n)
    requires m.par.size == n.par.size && m.par.failed >= n.par.failed
    ensures Doomed(m)
  {
    HealthFalls(DataArticles(n), DataLost(n), DataLost(m));
    CriticalRises(DataArticles(n), n.par.size, n.par.failed, m.par.failed);
    hide Health, CriticalHealth;
  }

  lemma BookedStaysDoomed(n: Nzb, f: nat, a: nat)
    requires HasArticle(n, f, a) && Doomed(n)
    ensures Doomed(Received(n, f, a)) && Doomed(Missed(n, f, a))
  {
    hide Doomed;
    DoomStays(n, Received(n, f, a));
    DoomStays(n, Missed(n, f, a));
  }

  /** Without par2 data an NZB is given up exactly when a data article is lost. */
  lemma GivenUpWithoutPar(n: Nzb)
    requires n.par.size == 0
    ensures Hopeless(WithHealth(n)) <==> DataLost(n) > 0 && DataArticles(n) > 0
  {
    var t, l := DataArticles(n), DataLost(n);
    if t > 0 {
      DivideBelow(1000 * Less(t, l), t, 1000);
    }
  }

  /** A whole number of per mille lies above what is left and not above what must be left. */
  ghost predicate PerMilleBetween(articles: nat, lost: nat, repairable: nat) {
    exists k: nat :: 1000 * Less(articles, lost) < articles * k <= 1000 * Less(articles, repairable)
  }

  lemma QuotientsDiffer(a: nat, b: nat, d: nat)
    requires d > 0
    ensures Quotient(a, d) < Quotient(b, d) <==> exists k: nat :: a < d * k <= b
  {
    DivideBelow(a, d, b / d);
    DivideBelow(b, d, b / d);
    if k: nat :| a < d * k <= b {
      DivideBelow(a, d, k);
      DivideBelow(b, d, k);
    }
  }

  /**
   * With par2 data it is given up exactly when the loss beyond what the par2 data repairs crosses a
   * whole per mille; it then exceeds it, and up to a thousand articles every excess crosses one.
   */
  lemma GivenUpBeyondRepair(n: Nzb)
    requires n.par.size > 0
    ensures var t, l, r := DataArticles(n), DataLost(n), Repairable(DataArticles(n), n.par.size, n.par.failed);
            && (Doomed(n) <==> PerMilleBetween(t, l, r))
            && (Doomed(n) ==> l > r)
            && (0 < t <= 1000 && r < l && r < t ==> Doomed(n))
  {
    var t, l := DataArticles(n), DataLost(n);
    var r := Repairable(t, n.par.size, n.par.failed);
    if t > 0 {
      var left, needed := 1000 * Less(t, l), 1000 * Less(t, r);
      QuotientsDiffer(left, needed, t);
      if l <= r {
        DivideMonotone(needed, left, t);
      } else if t <= 1000 && r < t {
        LargeStep(left, needed, t);
      }
    }
  }

  lemma LargeStep(a: nat, b: nat, d: nat)
    requires 0 < d && a + d <= b
    ensures Quotient(a, d) < Quotient(b, d)
  {
    DivideBelow(b, d, b / d + 1);
    DivideBelow(a, d, b / d);
  }
}
