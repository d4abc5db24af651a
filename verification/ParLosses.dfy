/** Whether the losses that health is computed from are the losses among data files. */
module ParLosses {
  import opened Commands
  import opened Common
  import opened History
  import opened Ledger
  import opened Numbers
  import opened Queue

  /** The lost articles of the files that are par2 by their names. */
  function ParLost(files: seq<File>): nat {
    if files == [] then 0
    else
      var last := files[|files| - 1];
      ParLost(files[..|files| - 1]) + if last.par then last.tally.lost else 0
  }

  lemma {:induction false} ParLostUpdate(files: seq<File>, i: nat, g: File)
    requires i < |files| && g.par == files[i].par
    ensures ParLost(files[i := g]) - ParLost(files) == if g.par then g.tally.lost - files[i].tally.lost else 0
  {
    var last := |files| - 1;
    if i == last {
      assert files[i := g][..last] == files[..last];
    } else {
      ParLostUpdate(files[..last], i, g);
      assert files[i := g][..last] == files[..last][i := g];
    }
  }

  lemma {:induction false} ParLostBound(files: seq<File>)
    ensures ParLost(files) <= FilesTally(files).lost
  {
    if files != [] {
      ParLostBound(files[..|files| - 1]);
    }
  }

  lemma {:induction false} NoParLost(files: seq<File>)
    requires forall i :: 0 <= i < |files| ==> files[i].tally.lost == 0
    ensures ParLost(files) == 0
  {
    if files != [] {
      NoParLost(files[..|files| - 1]);
    }
  }

  /** How far the count of lost par2 articles is ahead of what the files say. */
  function Drift(n: Nzb): int {
    n.par.lost - ParLost(n.files)
  }

  /**
   * The losses behind health are those of the data files if and only if the count has not drifted,
   * or has but only par2 articles are lost.
   */
  lemma DataLostExact(n: Nzb)
    requires Queue.Balanced(n) && n.files != []
    ensures DataLost(n) == n.tally.lost - ParLost(n.files) <==>
              Drift(n) == 0 || (Drift(n) > 0 && ParLost(n.files) == n.tally.lost)
  {
    ParLostBound(n.files);
  }

  /** No report changes the drift. */
  lemma BookedKeepsDrift(n: Nzb, f: nat, a: nat, success: bool)
    requires HasArticle(n, f, a)
    ensures Drift(CloseFile(AfterArticle(n, f, a, success), f)) == Drift(n)
  {
    hide Health, CriticalHealth, AllTerminal, ParLost;
    var m := CloseFile(AfterArticle(n, f, a, success), f);
    assert m.files == n.files[f := m.files[f]];
    ParLostUpdate(n.files, f, m.files[f]);
  }

  /** A new NZB starts without drift. */
  lemma NewHasNoDrift(id: nat, parsed: seq<ParsedFile>, labels: Labels, priority: Priority, paused: bool)
    ensures Drift(NewNzb(id, parsed, labels, priority, paused)) == 0
  {
    NoParLost(NewFiles(parsed));
    SharesLost(parsed);
    hide ParLost, FilesTally, CriticalHealth;
  }

  lemma {:induction false} SharesLost(parsed: seq<ParsedFile>)
    ensures Shares(parsed).lost == 0
  {
    if parsed != [] {
      SharesLost(parsed[..|parsed| - 1]);
    }
  }

  /** A redownloaded one has as much drift as par2 articles were counted lost before. */
  lemma ResetDrifts(e: Nzb, id: nat)
    ensures Drift(Reset(e, id)) == e.par.lost
  {
    NoParLost(ResetFiles(e.files));
    hide ParLost;
  }

  /** Up to the count of lost par2 articles, losses of any kind do not doom an NZB. */
  lemma LossesMasked(n: Nzb)
    requires n.tally.lost <= n.par.lost
    ensures DataLost(n) == 0 && !Doomed(n)
  {
    NothingLost(n.(tally := n.tally.(lost := 0)));
  }

  // ---- A loss beyond repair that goes unnoticed ----

  /** An NZB after its first j articles of one file were reported lost, one after another. */
  function Losing(n: Nzb, f: nat, j: nat): Nzb {
    if j == 0 then n else CloseFile(AfterArticle(Losing(n, f, j - 1), f, j - 1, false), f)
  }

  lemma {:induction false} LosingData(n: Nzb, f: nat, j: nat)
    requires f < |n.files| && j <= |n.files[f].articles| && !n.files[f].par
    ensures var m := Losing(n, f, j);
            && |m.files| == |n.files| && (forall g :: 0 <= g < |n.files| && g != f ==> m.files[g] == n.files[g])
            && |m.files[f].articles| == |n.files[f].articles| && !m.files[f].par
            && m.par == n.par && m.tally.articles == n.tally.articles && m.tally.lost == n.tally.lost + j
  {
    hide Health, CriticalHealth, AllTerminal;
    if j > 0 {
      LosingData(n, f, j - 1);
    }
  }

  /** Two thousand articles of data, and two of par2 data with 200 bytes. */
  function LargeNzb(id: nat): Nzb {
    NewNzb(id, [ParsedFile(false, false, seq(2000, _ => 1)), ParsedFile(true, true, [1, 199])],
           Labels("", "", "", 0, ScoreMode, []), Normal, false)
  }

  lemma LargeParts(id: nat)
    ensures var n := LargeNzb(id);
            && |n.files| == 2 && |n.files[0].articles| == 2000 && !n.files[0].par && n.files[1].par
            && n.files[1].articles == [Article(1, Undefined), Article(199, Undefined)]
            && n.tally.articles == 2002 && n.tally.lost == 0 && n.par == ParShare(200, 0, 2, 0)
  {
    var data, par := ParsedFile(false, false, seq(2000, _ => 1)), ParsedFile(true, true, [1, 199]);
    var files := NewFiles([data, par]);
    assert files[..1] == [files[0]] && files[..1][..0] == [] && [data, par][..1] == [data] && [data][..0] == [];
    assert [1, 199][..1] == [1] && [1][..0] == [];
    assert Total([1, 199]) == 200;
    assert files[1].articles == [Article(1, Undefined), Article(199, Undefined)];
    hide CriticalHealth;
    assert FilesTally(files) == Plus(FilesTally(files[..1]), files[1].tally);
    assert FilesTally(files[..1]) == Plus(FilesTally([]), files[0].tally);
    assert Shares([data]) == ParShare(0, 0, 0, 0);
  }

  /** It survives the loss of up to 200 data articles, which its par2 data repairs. */
  lemma LossRepairable(id: nat, j: nat)
    requires j <= 200
    ensures !Doomed(Losing(LargeNzb(id), 0, j))
  {
    LargeParts(id);
    LosingData(LargeNzb(id), 0, j);
    assert Repairable(2000, 200, 0) == 200;
    hide LargeNzb, Losing;
    GivenUpBeyondRepair(Losing(LargeNzb(id), 0, j));
  }

  /** With 200 of them gone it survives the loss of the small par2 article, although 199 could be repaired only. */
  lemma ExcessLossUnnoticed(id: nat, j: nat)
    requires j == 200
    ensures var m := AfterArticle(Losing(LargeNzb(id), 0, j), 1, 0, false);
            && !Hopeless(m) && m.par.size > 0
            && DataLost(m) == 200 && Repairable(DataArticles(m), m.par.size, m.par.failed) == 199
  {
    LargeParts(id);
    LosingData(LargeNzb(id), 0, j);
    SmallParLost(Losing(LargeNzb(id), 0, j));
    hide LargeNzb, Losing, AfterArticle;
  }

  lemma SmallParLost(n: Nzb)
    requires |n.files| == 2 && n.files[1].par && n.files[1].articles == [Article(1, Undefined), Article(199, Undefined)]
    requires n.tally.articles == 2002 && n.tally.lost == 200 && n.par == ParShare(200, 0, 2, 0)
    ensures var m := AfterArticle(n, 1, 0, false);
            && !Hopeless(m) && m.par.size > 0
            && DataLost(m) == 200 && Repairable(DataArticles(m), m.par.size, m.par.failed) == 199
  {
    var m := Missed(n, 1, 0);
    assert m.par == ParShare(200, 1, 2, 1) && m.tally.articles == 2002 && m.tally.lost == 201;
    assert Repairable(2000, 200, 1) == 199;
    assert Health(2000, 200) == 900;
    assert CriticalHealth(2000, 200, 1) == 900;
  }
}
