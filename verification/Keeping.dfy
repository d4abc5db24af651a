/** Every command keeps the books sound, whatever state they are in. */
module Keeping {
  import opened Commands
  import opened Common
  import opened History
  import opened Ledger
  import opened Queue
  import opened Selection

  lemma CosmeticsSound(b: Books, q: seq<Nzb>)
    requires Sound(b) && |q| == |b.queue| && forall i :: 0 <= i < |q| ==> Cosmetic(b.queue[i], q[i])
    ensures Sound(b.(queue := q))
  {
    forall i | 0 <= i < |q|
      ensures Queue.Balanced(q[i]) && Trusted(q[i]) && Placed(q[i], b.exits)
    {
      FlagsBalanced(b.queue[i], q[i]);
      CosmeticKeeps(b.queue[i], q[i], b.exits);
    }
    assert forall i :: 0 <= i < |q| ==> q[i].id == b.queue[i].id;
    hide Queue.Balanced, Trusted, Shelved, Placed, Cosmetic;
  }

  lemma MovedSound(b: Books, id: nat, position: Position)
    requires Sound(b)
    ensures Sound(b.(queue := Moved(b.queue, id, position).0))
  {
    hide Sound;
    var i := IndexOf(b.queue, id);
    if i < |b.queue| {
      RemoveSound(b, i);
      var k := Landing(Without(b.queue, i), i, position);
      if k.Some? {
        MoveSound(b, i, k.value);
      }
    }
  }

  lemma FlagsCosmetic(n: Nzb, pause: bool, priority: Priority, f: nat)
    ensures Cosmetic(n, n.(paused := pause)) && Cosmetic(n, n.(priority := priority)) && Cosmetic(n, n.(post := true))
    ensures f < |n.files| ==> Cosmetic(n, WithFile(n, f, n.files[f].(paused := pause)))
  {
  }

  lemma ParResumedCosmetic(n: Nzb)
    ensures Cosmetic(n, ParResumed(n))
  {
  }

  lemma LabelsSound(b: Books, id: nat, action: EditAction)
    requires Sound(b)
    ensures Sound(b.(queue := WithLabels(b.queue, id, action)))
  {
    hide Sound;
    var i := IndexOf(b.queue, id);
    assert b.(queue := b.queue) == b;
    if i < |b.queue| {
      CosmeticSound(b, i, b.queue[i].(labels := Edit(b.queue[i].labels, action)));
    }
  }

  /** One flag of one NZB changes. */
  lemma FlagSound(b: Books, id: nat, pause: bool, priority: Priority, f: nat)
    requires Sound(b)
    ensures Sound(b.(queue := WithPause(b.queue, id, pause))) && Sound(b.(queue := WithPriority(b.queue, id, priority)))
    ensures Sound(b.(queue := WithFilePause(b.queue, id, f, pause))) && Sound(b.(queue := WithPost(b.queue, id)))
  {
    hide Sound, Cosmetic;
    var i := IndexOf(b.queue, id);
    assert b.(queue := b.queue) == b;
    if i < |b.queue| {
      var n := b.queue[i];
      FlagsCosmetic(n, pause, priority, f);
      CosmeticSound(b, i, n.(paused := pause));
      CosmeticSound(b, i, n.(priority := priority));
      CosmeticSound(b, i, n.(post := true));
      if f < |n.files| {
        CosmeticSound(b, i, WithFile(n, f, n.files[f].(paused := pause)));
      }
    }
  }

  lemma WithoutSound(b: Books, id: nat)
    requires Sound(b)
    ensures Sound(b.(queue := WithoutId(b.queue, id))) && Sound(b.(history := WithoutId(b.history, id)))
  {
    hide Sound, Without;
    assert b.(queue := b.queue) == b && b.(history := b.history) == b;
    if IndexOf(b.queue, id) < |b.queue| {
      RemoveSound(b, IndexOf(b.queue, id));
    }
    if IndexOf(b.history, id) < |b.history| {
      ForgetSound(b, IndexOf(b.history, id));
    }
  }

  lemma {:induction false} EditedSound(b: Books, action: EditAction, ids: seq<nat>)
    requires Sound(b)
    ensures Sound(b.(queue := Edited(b.queue, action, ids).0))
    decreases |ids|
  {
    hide Sound, Moved, WithPause, WithPriority, WithoutId, WithLabels;
    assert b.(queue := b.queue) == b;
    if ids != [] {
      FlagSound(b, ids[0], action.Pause?, if action.SetPriority? then action.priority else Normal, 0);
      WithoutSound(b, ids[0]);
      LabelsSound(b, ids[0], action);
      if action.Move? {
        MovedSound(b, ids[0], action.position);
      }
      var step := EditStep(b.queue, action, ids[0]);
      if step.1 {
        EditedSound(b.(queue := step.0), action, ids[1..]);
      }
    }
  }

  lemma ResumedSound(b: Books, id: nat)
    requires Sound(b)
    ensures Sound(b.(queue := AllResumed(b.queue))) && Sound(b.(queue := WithParResumed(b.queue, id)))
  {
    CosmeticsSound(b, AllResumed(b.queue));
    var i := IndexOf(b.queue, id);
    assert b.(queue := b.queue) == b;
    if i < |b.queue| {
      CosmeticSound(b, i, ParResumed(b.queue[i]));
    }
    hide Sound;
  }

  lemma ArchivedSound(b: Books, id: nat)
    requires Sound(b) && var i := IndexOf(b.queue, id); i < |b.queue| ==> AllCompleted(b.queue[i])
    ensures Sound(Archived(b, id))
  {
    var i := IndexOf(b.queue, id);
    if i < |b.queue| {
      var n, m := b.queue[i], b.queue[i].(post := false);
      assert Queue.Balanced(n) && Trusted(n);
      FlagsBalanced(n, m);
      FlagsTrusted(n, m);
      CompletedShelved(n);
      hide Sound, Queue.Balanced, Shelved, Trusted;
      ArchiveSound(b, i, m);
    }
  }

  lemma AddedSound(b: Books, parsed: seq<ParsedFile>, labels: Labels, priority: Priority, paused: bool, top: bool)
    requires Sound(b)
    ensures Sound(Enter(b, NewNzb(b.next, parsed, labels, priority, paused), top)) && Sound(b.(next := b.next + 1))
  {
    hide Sound, Settled, Trusted, Startable, Queue.Balanced, NewNzb, Enter;
    SkipIdSound(b);
    var n := NewNzb(b.next, parsed, labels, priority, paused);
    NewNzbStarts(b.next, parsed, labels, priority, paused);
    NewNzbBalanced(b.next, parsed, labels, priority, paused);
    EnterSound(b, n, top);
  }

  /**
   * Every command keeps the books sound: balanced accounts, ids and exits that are unique, and a
   * history in which only doomed NZBs have anything left to download. What is asked of the
   * application is that it reports existing articles of NZBs that have not completed, and ends the
   * post-processing of completed NZBs only.
   */
  lemma EffectSound(b: Books, c: Command, notifies: bool)
    requires Sound(b)
    requires c.DownloadComplete? ==>
               Known(b.queue, c.report.id) && (IsOpen(b.queue, c.report.id) ==> Completed(c.report.id.nzb) !in b.exits)
    requires c.FinishPostProcessing? ==>
               var i := IndexOf(b.queue, c.id);
               i < |b.queue| ==> AllCompleted(b.queue[i])
    ensures Sound(Effect(b, c, notifies))
  {
    hide Sound, Known, IsOpen, AllCompleted, Edited, Moved, WithPause, WithFilePause, WithPriority, WithPost, WithParResumed,
         WithoutId, AllResumed, Enter, NewNzb, DuplicateOf, Reported, Returned, Processed, Redownloaded, Archived;
    match c
    case AddNzb(parsed, labels, priority, paused, top) => AddedSound(b, parsed, labels, priority, paused, top);
    case RemoveNzb(id) => WithoutSound(b, id);
    case PauseNzb(id) => FlagSound(b, id, true, Normal, 0);
    case ResumeNzb(id) => FlagSound(b, id, false, Normal, 0);
    case MoveNzb(id, position) => MovedSound(b, id, position);
    case PauseFile(id, file) => FlagSound(b, id, true, Normal, file);
    case ResumeFile(id, file) => FlagSound(b, id, false, Normal, file);
    case ResumeAll => ResumedSound(b, 0);
    case EditQueue(action, ids) => EditedSound(b, action, ids);
    case DownloadComplete(report) => ReportedSound(b, report.id, report.outcome, notifies);
    case ParUnpause(id) => ResumedSound(b, id);
    case HistoryReturn(id) =>
      if IndexOf(b.history, id) < |b.history| {
        ReturnedSound(b, IndexOf(b.history, id));
      }
    case HistoryProcess(id) =>
      if IndexOf(b.history, id) < |b.history| {
        ProcessedSound(b, IndexOf(b.history, id), notifies);
      }
    case HistoryRedownload(id) =>
      if IndexOf(b.history, id) < |b.history| {
        RedownloadedSound(b, IndexOf(b.history, id));
      }
    case HistoryDelete(id) => WithoutSound(b, id);
    case UpdatePostStage(id) => FlagSound(b, id, true, Normal, 0);
    case FinishPostProcessing(id) => ArchivedSound(b, id);
    case _ =>
  }
}
