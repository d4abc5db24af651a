/** Adding NZBs, and bringing finished ones back from the history. */
module History {
  import opened Common
  import opened Ledger
  import opened Numbers
  import opened Queue

  // ---- Adding ----

  /** A parsed file: par by its name, par to the parser, and its segment sizes. */
  datatype ParsedFile = ParsedFile(par: bool, parserPar: bool, segments: seq<nat>)

  function NewArticles(sizes: seq<nat>): (s: seq<Article>)
    ensures |s| == |sizes|
  {
    seq(|sizes|, i requires 0 <= i < |sizes| => Article(sizes[i], Undefined))
  }

  function Total(sizes: seq<nat>): nat {
    if sizes == [] then 0 else Total(sizes[..|sizes| - 1]) + sizes[|sizes| - 1]
  }

  /** Nothing downloaded yet. */
  function Untouched(size: nat, articles: nat): Tally {
    Tally(size, size, 0, 0, articles, 0, 0)
  }

  function NewFile(p: ParsedFile): File {
    File(p.par, false, false, NewArticles(p.segments), Untouched(Total(p.segments), |p.segments|))
  }

  lemma {:induction false} NewFileBalanced(p: ParsedFile)
    ensures FileBalanced(NewFile(p))
    decreases |p.segments|
  {
    var n := |p.segments|;
    if n > 0 {
      var q := p.(segments := p.segments[..n - 1]);
      NewFileBalanced(q);
      assert NewArticles(p.segments)[..n - 1] == NewArticles(q.segments);
    }
  }

  /** The par2 share of the files the parser classifies as par2. */
  function Shares(parsed: seq<ParsedFile>): ParShare {
    if parsed == [] then ParShare(0, 0, 0, 0)
    else
      var p := parsed[|parsed| - 1];
      var rest := Shares(parsed[..|parsed| - 1]);
      if p.parserPar
      then rest.(size := rest.size + Total(p.segments), articles := rest.articles + |p.segments|)
      else rest
  }

  lemma FilesTallyPush(files: seq<File>, file: File)
    ensures FilesTally(files + [file]) == Plus(FilesTally(files), file.tally)
  {
    assert (files + [file])[..|files|] == files;
  }

  /** The files of a parsed NZB, with the totals added up in the loop over them. */
  method BuildFiles(parsed: seq<ParsedFile>) returns (files: seq<File>, tally: Tally, par: ParShare)
    ensures |files| == |parsed| && forall i :: 0 <= i < |parsed| ==> files[i] == NewFile(parsed[i])
    ensures forall i :: 0 <= i < |files| ==> FileBalanced(files[i])
    ensures tally == FilesTally(files) == Untouched(tally.size, tally.articles)
    ensures par == Shares(parsed)
  {
    hide FileBalanced, FilesTally, Total;
    files := [];
    var size: nat, articles: nat, parSize: nat, parArticles: nat := 0, 0, 0, 0;
    NoFiles();
    for i := 0 to |parsed|
      invariant |files| == i && forall j :: 0 <= j < i ==> files[j] == NewFile(parsed[j])
      invariant forall j :: 0 <= j < i ==> FileBalanced(files[j])
      invariant FilesTally(files) == Untouched(size, articles)
      invariant ParShare(parSize, 0, parArticles, 0) == Shares(parsed[..i])
    {
      NewFileBalanced(parsed[i]);
      var file := NewFile(parsed[i]);
      FilesTallyPush(files, file);
      files := files + [file];
      size := size + file.tally.size;
      articles := articles + file.tally.articles;
      assert parsed[..i + 1][..i] == parsed[..i];
      if parsed[i].parserPar {
        parSize := parSize + file.tally.size;
        parArticles := parArticles + file.tally.articles;
      }
    }
    assert parsed[..|parsed|] == parsed;
    tally := Untouched(size, articles);
    par := ParShare(parSize, 0, parArticles, 0);
  }

  lemma NoFiles()
    ensures FilesTally([]) == NOTHING
  {
  }

  // ---- Coming back ----

  /** history_return_to_queue. */
  function Returned(b: Books, k: nat): Books
    requires k < |b.history|
  {
    Enter(b.(history := Without(b.history, k)), b.history[k].(id := b.next, paused := false), false)
  }

  function CompleteFiles(files: seq<File>): (r: seq<File>)
    ensures |r| == |files| && forall i :: 0 <= i < |files| ==> r[i] == files[i].(completed := true)
  {
    seq(|files|, i requires 0 <= i < |files| => files[i].(completed := true))
  }

  /** The entry as history_process puts it into the queue. */
  function Unread(b: Books, k: nat): Nzb
    requires k < |b.history|
  {
    b.history[k].(id := b.next, paused := false, reprocess := true, files := CompleteFiles(b.history[k].files))
  }

  /** history_process: straight to post-processing. */
  function Processed(b: Books, k: nat, notifies: bool): Books
    requires k < |b.history|
  {
    Finish(Enter(b.(history := Without(b.history, k)), Unread(b, k), false), |b.queue|, notifies)
  }

  function ResetArticles(s: seq<Article>): (r: seq<Article>)
    ensures |r| == |s| && forall i :: 0 <= i < |s| ==> r[i] == s[i].(status := Undefined)
  {
    seq(|s|, i requires 0 <= i < |s| => s[i].(status := Undefined))
  }

  function ResetFile(f: File): File {
    f.(completed := false, paused := false, articles := ResetArticles(f.articles),
       tally := Untouched(f.tally.size, f.tally.articles))
  }

  function ResetFiles(files: seq<File>): (r: seq<File>)
    ensures |r| == |files| && forall i :: 0 <= i < |files| ==> r[i] == ResetFile(files[i])
  {
    seq(|files|, i requires 0 <= i < |files| => ResetFile(files[i]))
  }

  /** The entry as history_redownload puts it back: par accounts and post_info stay. */
  function Reset(e: Nzb, id: nat): (n: Nzb)
    ensures n.id == id
  {
    e.(id := id, paused := false, health := 1000, files := ResetFiles(e.files),
       tally := Untouched(e.tally.size, e.tally.articles))
  }

  function Redownloaded(b: Books, k: nat): Books
    requires k < |b.history|
  {
    Enter(b.(history := Without(b.history, k)), Reset(b.history[k], b.next), false)
  }

  lemma ReturnedSound(b: Books, k: nat)
    requires Sound(b) && k < |b.history|
    ensures Sound(Returned(b, k))
  {
    ForgetSound(b, k);
    var e := b.history[k];
    var n := e.(id := b.next, paused := false);
    assert Balanced(e) && Shelved(e);
    FlagsBalanced(e, n);
    FlagsTrusted(e, n);
    hide Sound, Balanced, Settled;
    EnterSound(b.(history := Without(b.history, k)), n, false);
  }

  /** Setting every mark of a finished entry keeps them exact. */
  lemma UnreadTrusted(b: Books, k: nat)
    requires k < |b.history| && Shelved(b.history[k]) && Balanced(b.history[k])
    ensures Trusted(Unread(b, k)) && Balanced(Unread(b, k))
  {
    var e, n := b.history[k], Unread(b, k);
    FlagsBalanced(e, n);
    hide Balanced;
    assert Doomed(n) <==> Doomed(e) by {
      hide Health, CriticalHealth;
    }
    hide Doomed;
    if AllDone(e) {
      forall i | 0 <= i < |n.files|
        ensures n.files[i].completed && AllTerminal(n.files[i])
      {
        assert AllTerminal(e.files[i]);
      }
    }
  }

  lemma ProcessedSound(b: Books, k: nat, notifies: bool)
    requires Sound(b) && k < |b.history|
    ensures Sound(Processed(b, k, notifies))
  {
    ForgetSound(b, k);
    UnreadTrusted(b, k);
    var n := Unread(b, k);
    var c := b.(history := Without(b.history, k));
    FreshPlaced(c, n);
    hide Sound, Balanced, Trusted, Stalling;
    EnterSound(c, n, false);
    FinishSound(Enter(c, n, false), |b.queue|, notifies);
  }

  lemma {:induction false} ResetTally(s: seq<Article>)
    ensures ArticlesTally(ResetArticles(s)) == Untouched(ArticlesTally(s).size, ArticlesTally(s).articles)
  {
    if s != [] {
      ResetTally(s[..|s| - 1]);
      assert ResetArticles(s)[..|s| - 1] == ResetArticles(s[..|s| - 1]);
    }
  }

  lemma {:induction false} ResetFilesTally(s: seq<File>)
    ensures FilesTally(ResetFiles(s)) == Untouched(FilesTally(s).size, FilesTally(s).articles)
  {
    if s != [] {
      ResetFilesTally(s[..|s| - 1]);
      assert ResetFiles(s)[..|s| - 1] == ResetFiles(s[..|s| - 1]);
    }
  }

  lemma ResetBalanced(e: Nzb, id: nat)
    requires Balanced(e)
    ensures Balanced(Reset(e, id))
  {
    ResetFilesTally(e.files);
    forall i | 0 <= i < |e.files|
      ensures FileBalanced(ResetFile(e.files[i]))
    {
      assert FileBalanced(e.files[i]);
      ResetTally(e.files[i].articles);
    }
    hide FileBalanced, FilesTally;
  }

  /**
   * A redownloaded NZB has exact marks and nothing downloaded, and is startable if and only if it
   * has files and each has an article. Whatever was lost before, it is not doomed.
   */
  lemma ResetStarts(e: Nzb, id: nat)
    ensures Settled(Reset(e, id)) && !Doomed(Reset(e, id))
    ensures forall f: nat, a: nat :: HasArticle(e, f, a) ==> ArticleAt(Reset(e, id), f, a).status == Undefined
    ensures Startable(Reset(e, id)) <==> e.files != [] && NoEmptyFile(e)
  {
    var n := Reset(e, id);
    NothingLost(n);
    hide Doomed;
    forall i | 0 <= i < |e.files|
      ensures AllTerminal(n.files[i]) <==> e.files[i].articles == []
      ensures n.files[i].articles == [] <==> e.files[i].articles == []
    {
      if e.files[i].articles != [] {
        assert n.files[i].articles[0].status == Undefined;
      }
    }
    if e.files != [] && NoEmptyFile(e) {
      assert !AllTerminal(n.files[0]);
    }
  }

  lemma NothingLost(n: Nzb)
    requires n.tally.lost == 0
    ensures !Doomed(n)
  {
    var t := DataArticles(n);
    if t > 0 {
      DivideBelow(1000 * t, t, 1000);
      if n.par.size > 0 {
        var r := Repairable(t, n.par.size, n.par.failed);
        DivideMonotone(1000 * Less(t, r), 1000 * t, t);
      }
    }
  }

  lemma RedownloadedSound(b: Books, k: nat)
    requires Sound(b) && k < |b.history|
    ensures Sound(Redownloaded(b, k))
  {
    ForgetSound(b, k);
    assert Balanced(b.history[k]);
    ResetBalanced(b.history[k], b.next);
    ResetStarts(b.history[k], b.next);
    hide Sound, Balanced, Settled, Reset;
    EnterSound(b.(history := Without(b.history, k)), Reset(b.history[k], b.next), false);
  }
}
