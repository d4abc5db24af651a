/** The commands of the coordinator, as functions on its queue and history. */
module Commands {
  import opened Common
  import opened History
  import opened Ledger
  import opened Queue
  import opened Selection

  datatype Report = Report(id: ArticleId, outcome: Outcome, server: Option<nat>, seconds: real)

  datatype Position = Top | Bottom | Up(steps: nat) | Down(steps: nat) | Before(anchor: nat) | After(anchor: nat)

  datatype EditAction =
    | Move(position: Position)
    | Pause
    | Resume
    | Delete
    | SetPriority(priority: Priority)
    | SetCategory(category: string)
    | SetName(name: string)
    | SetDupeKey(dupKey: string)
    | SetDupeScore(score: int)
    | SetDupeMode(mode: DupMode)
    | SetParameter(key: string, value: string)
    | Merge
    | Split

  datatype Command =
    | AddNzb(parsed: seq<ParsedFile>, labels: Labels, priority: Priority, paused: bool, top: bool)
    | RemoveNzb(id: nat)
    | PauseNzb(id: nat)
    | ResumeNzb(id: nat)
    | MoveNzb(id: nat, position: Position)
    | PauseFile(id: nat, file: nat)
    | ResumeFile(id: nat, file: nat)
    | PauseAll
    | ResumeAll
    | EditQueue(action: EditAction, ids: seq<nat>)
    | DownloadComplete(report: Report)
    | ParUnpause(id: nat)
    | HistoryReturn(id: nat)
    | HistoryProcess(id: nat)
    | HistoryRedownload(id: nat)
    | HistoryDelete(id: nat)
    | UpdatePostStage(id: nat)
    | FinishPostProcessing(id: nat)
    | SetStrategy(strategy: Strategy)
    | Shutdown

  datatype QueueError = NzbNotFound(id: nat) | Duplicate(existing: nat) | InvalidMove

  datatype Result<T> = Ok(value: T) | Err(error: QueueError)

  /** Where a removed entry goes back in, among the rest of the queue. */
  function Landing(rest: seq<Nzb>, index: nat, position: Position): (k: Option<nat>)
    ensures k.Some? && index <= |rest| ==> k.value <= |rest|
    ensures k.None? <==> (position.Before? || position.After?) && IndexOf(rest, position.anchor) == |rest|
  {
    match position
    case Top => Some(0)
    case Bottom => Some(|rest|)
    case Up(steps) => Some(Less(index, steps))
    case Down(steps) => Some(if index + steps < |rest| then index + steps else |rest|)
    case Before(anchor) =>
      var k := IndexOf(rest, anchor);
      if k == |rest| then None else Some(k)
    case After(anchor) =>
      var k := IndexOf(rest, anchor);
      if k == |rest| then None else Some(k + 1)
  }

  /** Where a successful move leaves the entry. */
  lemma MoveLands(queue: seq<Nzb>, i: nat, position: Position)
    requires i < |queue| && Landing(Without(queue, i), i, position).Some?
    ensures var k := Landing(Without(queue, i), i, position).value;
            var moved := Inserted(Without(queue, i), k, queue[i]);
            && moved[k] == queue[i]
            && match position {
                 case Top => k == 0
                 case Bottom => k == |queue| - 1
                 case Up(steps) => k == if steps <= i then i - steps else 0
                 case Down(steps) => k == if i + steps < |queue| then i + steps else |queue| - 1
                 case Before(anchor) => k + 1 < |moved| && moved[k + 1].id == anchor
                 case After(anchor) => k > 0 && moved[k - 1].id == anchor
               }
  {
  }

  /** The par files among the first k are no longer paused; nothing else differs. */
  predicate ParUnpaused(n: Nzb, m: Nzb, k: nat) {
    && m == n.(files := m.files) && |m.files| == |n.files|
    && forall f :: 0 <= f < |n.files| ==>
         m.files[f] == if f < k && n.files[f].par then n.files[f].(paused := false) else n.files[f]
  }

  lemma UnpauseOne(n: Nzb, m: Nzb, f: nat)
    requires ParUnpaused(n, m, f) && f < |m.files| && m.files[f].par
    ensures var next := WithFile(m, f, m.files[f].(paused := false));
            ParUnpaused(n, next, f + 1) && Cosmetic(m, next)
  {
  }

  lemma AllParUnpaused(n: Nzb, m: Nzb)
    requires ParUnpaused(n, m, |n.files|)
    ensures m == ParResumed(n)
  {
    assert m.files == ParResumed(n).files;
  }

  /** check_duplicate: queued NZBs always collide, finished ones unless forced. */
  function DuplicateOf(queue: seq<Nzb>, history: seq<Nzb>, key: string, force: bool): (r: Option<nat>)
    ensures r.Some? <==> key != "" && (HasKey(queue, key) || (!force && HasKey(history, key)))
    ensures r.Some? ==> exists n :: (n in queue || (!force && n in history)) && n.id == r.value && n.labels.dupKey == key
  {
    if key == "" then None
    else
      var i := KeyIndex(queue, key);
      var k := KeyIndex(history, key);
      if i < |queue| then Some(queue[i].id)
      else if !force && k < |history| then Some(history[k].id)
      else None
  }

  predicate HasKey(s: seq<Nzb>, key: string) {
    exists i :: 0 <= i < |s| && s[i].labels.dupKey == key
  }

  function KeyIndex(s: seq<Nzb>, key: string): (i: nat)
    ensures i <= |s| && (i < |s| ==> s[i].labels.dupKey == key)
    ensures i < |s| <==> HasKey(s, key)
  {
    if s == [] then 0
    else if s[0].labels.dupKey == key then 0
    else 1 + KeyIndex(s[1..], key)
  }

  // ---- What each command does ----

  function WithPause(q: seq<Nzb>, id: nat, pause: bool): seq<Nzb> {
    var i := IndexOf(q, id);
    if i < |q| then q[i := q[i].(paused := pause)] else q
  }

  function WithPriority(q: seq<Nzb>, id: nat, priority: Priority): seq<Nzb> {
    var i := IndexOf(q, id);
    if i < |q| then q[i := q[i].(priority := priority)] else q
  }

  /** The first parameter of the name gets the value; a new one goes to the end. */
  function WithParameter(parameters: seq<(string, string)>, key: string, value: string): seq<(string, string)> {
    if parameters == [] then [(key, value)]
    else if parameters[0].0 == key then [(key, value)] + parameters[1..]
    else [parameters[0]] + WithParameter(parameters[1..], key, value)
  }

  function Lookup(parameters: seq<(string, string)>, key: string): Option<string> {
    if parameters == [] then None
    else if parameters[0].0 == key then Some(parameters[0].1)
    else Lookup(parameters[1..], key)
  }

  /** A parameter that was set is found, and every other is as before. */
  lemma {:induction false} ParameterSet(parameters: seq<(string, string)>, key: string, value: string, other: string)
    ensures Lookup(WithParameter(parameters, key, value), other)
         == if other == key then Some(value) else Lookup(parameters, other)
  {
    if parameters != [] && parameters[0].0 != key {
      ParameterSet(parameters[1..], key, value, other);
      assert WithParameter(parameters, key, value)[1..] == WithParameter(parameters[1..], key, value);
    }
  }

  /** The labels after an edit; other edits leave them alone. */
  function Edit(labels: Labels, action: EditAction): Labels {
    match action
    case SetCategory(category) => labels.(category := category)
    case SetName(name) => labels.(name := name)
    case SetDupeKey(key) => labels.(dupKey := key)
    case SetDupeScore(score) => labels.(dupScore := score)
    case SetDupeMode(mode) => labels.(dupMode := mode)
    case SetParameter(key, value) => labels.(parameters := WithParameter(labels.parameters, key, value))
    case _ => labels
  }

  function WithLabels(q: seq<Nzb>, id: nat, action: EditAction): seq<Nzb> {
    var i := IndexOf(q, id);
    if i < |q| then q[i := q[i].(labels := Edit(q[i].labels, action))] else q
  }

  function WithFilePause(q: seq<Nzb>, id: nat, f: nat, pause: bool): seq<Nzb> {
    var i := IndexOf(q, id);
    if i < |q| && f < |q[i].files| then q[i := WithFile(q[i], f, q[i].files[f].(paused := pause))] else q
  }

  function WithPost(q: seq<Nzb>, id: nat): seq<Nzb> {
    var i := IndexOf(q, id);
    if i < |q| then q[i := q[i].(post := true)] else q
  }

  function AllResumed(q: seq<Nzb>): (r: seq<Nzb>)
    ensures |r| == |q| && forall i :: 0 <= i < |q| ==> r[i] == q[i].(paused := false)
  {
    seq(|q|, i requires 0 <= i < |q| => q[i].(paused := false))
  }

  function ParResumed(n: Nzb): Nzb {
    n.(files := seq(|n.files|, f requires 0 <= f < |n.files| =>
                  if n.files[f].par then n.files[f].(paused := false) else n.files[f]))
  }

  function WithParResumed(q: seq<Nzb>, id: nat): seq<Nzb> {
    var i := IndexOf(q, id);
    if i < |q| then q[i := ParResumed(q[i])] else q
  }

  function WithoutId(q: seq<Nzb>, id: nat): seq<Nzb> {
    var i := IndexOf(q, id);
    if i < |q| then Without(q, i) else q
  }

  /** The queue after a move, and whether the move succeeded. */
  function Moved(q: seq<Nzb>, id: nat, position: Position): (seq<Nzb>, bool) {
    var i := IndexOf(q, id);
    if i == |q| then (q, false)
    else
      var k := Landing(Without(q, i), i, position);
      if k.None? then (Without(q, i), false) else (Inserted(Without(q, i), k.value, q[i]), true)
  }

  /** Before itself or after an NZB that is not there: the moved one of two is lost. */
  lemma BadAnchorLoses()
    ensures Moved([Single(1), Single(2)], 1, Before(1)) == ([Single(2)], false)
    ensures Moved([Single(1), Single(2)], 1, After(3)) == ([Single(2)], false)
  {
    var q := [Single(1), Single(2)];
    assert IndexOf(q, 1) == 0 && Without(q, 0) == [Single(2)];
    hide Single;
  }

  function EditStep(q: seq<Nzb>, action: EditAction, id: nat): (seq<Nzb>, bool) {
    match action
    case Move(position) => Moved(q, id, position)
    case Pause => (WithPause(q, id, true), true)
    case Resume => (WithPause(q, id, false), true)
    case Delete => (WithoutId(q, id), true)
    case SetPriority(priority) => (WithPriority(q, id, priority), true)
    case Merge => (q, true)
    case Split => (q, true)
    case _ => (WithLabels(q, id, action), true)
  }

  /** apply_edit: one NZB after another, until a move fails. */
  function Edited(q: seq<Nzb>, action: EditAction, ids: seq<nat>): (seq<Nzb>, bool)
    decreases |ids|
  {
    if ids == [] then (q, true)
    else
      var step := EditStep(q, action, ids[0]);
      if step.1 then Edited(step.0, action, ids[1..]) else step
  }

  lemma {:induction false} MovesPermute(q: seq<Nzb>, position: Position, ids: seq<nat>)
    requires Edited(q, Move(position), ids).1
    ensures multiset(Edited(q, Move(position), ids).0) == multiset(q)
    decreases |ids|
  {
    if ids != [] {
      var i := IndexOf(q, ids[0]);
      MovePermutes(q, i, Landing(Without(q, i), i, position).value);
      MovesPermute(Moved(q, ids[0], position).0, position, ids[1..]);
    }
  }

  function NewFiles(parsed: seq<ParsedFile>): (files: seq<File>)
    ensures |files| == |parsed| && forall i :: 0 <= i < |parsed| ==> files[i] == NewFile(parsed[i])
  {
    seq(|parsed|, i requires 0 <= i < |parsed| => NewFile(parsed[i]))
  }

  /** The NZB that ingest_nzb builds. */
  function NewNzb(id: nat, parsed: seq<ParsedFile>, labels: Labels, priority: Priority, paused: bool): (n: Nzb)
    ensures n.id == id
  {
    var files := NewFiles(parsed);
    var tally, par := FilesTally(files), Shares(parsed);
    Nzb(id, labels, priority, paused, false, false, 1000, CriticalHealth(tally.articles, par.size, 0), par, files, tally)
  }

  lemma NewNzbBalanced(id: nat, parsed: seq<ParsedFile>, labels: Labels, priority: Priority, paused: bool)
    ensures Queue.Balanced(NewNzb(id, parsed, labels, priority, paused))
  {
    var files := NewFiles(parsed);
    forall i | 0 <= i < |parsed|
      ensures FileBalanced(files[i])
    {
      NewFileBalanced(parsed[i]);
    }
    hide FileBalanced, NewFile, FilesTally;
    FilesConserved(files);
  }

  /** A new NZB can start exactly when it has files and each has a segment, as the parser demands. */
  lemma NewNzbStarts(id: nat, parsed: seq<ParsedFile>, labels: Labels, priority: Priority, paused: bool)
    ensures var n := NewNzb(id, parsed, labels, priority, paused);
            && Settled(n) && Trusted(n)
            && (Startable(n) <==> parsed != [] && forall i :: 0 <= i < |parsed| ==> parsed[i].segments != [])
  {
    var n := NewNzb(id, parsed, labels, priority, paused);
    forall i | 0 <= i < |parsed|
      ensures AllTerminal(n.files[i]) <==> parsed[i].segments == []
      ensures n.files[i].articles == [] <==> parsed[i].segments == []
      ensures !n.files[i].completed
    {
      if parsed[i].segments != [] {
        assert n.files[i].articles[0].status == Undefined;
      }
    }
    if parsed != [] && forall i :: 0 <= i < |parsed| ==> parsed[i].segments != [] {
      assert !AllTerminal(n.files[0]);
    }
  }

  /** finish_post_processing */
  function Archived(b: Books, id: nat): Books {
    var i := IndexOf(b.queue, id);
    if i == |b.queue| then b
    else b.(queue := Without(b.queue, i), history := b.history + [b.queue[i].(post := false)])
  }

  function Effect(b: Books, c: Command, notifies: bool): Books {
    match c
    case AddNzb(parsed, labels, priority, paused, top) =>
      if DuplicateOf(b.queue, b.history, labels.dupKey, labels.dupMode == ForceMode).Some? then b.(next := b.next + 1)
      else Enter(b, NewNzb(b.next, parsed, labels, priority, paused), top)
    case RemoveNzb(id) => b.(queue := WithoutId(b.queue, id))
    case PauseNzb(id) => b.(queue := WithPause(b.queue, id, true))
    case ResumeNzb(id) => b.(queue := WithPause(b.queue, id, false))
    case MoveNzb(id, position) => b.(queue := Moved(b.queue, id, position).0)
    case PauseFile(id, file) => b.(queue := WithFilePause(b.queue, id, file, true))
    case ResumeFile(id, file) => b.(queue := WithFilePause(b.queue, id, file, false))
    case ResumeAll => b.(queue := AllResumed(b.queue))
    case EditQueue(action, ids) => b.(queue := Edited(b.queue, action, ids).0)
    case DownloadComplete(report) => Reported(b, report.id, report.outcome, notifies)
    case ParUnpause(id) => b.(queue := WithParResumed(b.queue, id))
    case HistoryReturn(id) =>
      var k := IndexOf(b.history, id);
      if k < |b.history| then Returned(b, k) else b
    case HistoryProcess(id) =>
      var k := IndexOf(b.history, id);
      if k < |b.history| then Processed(b, k, notifies) else b
    case HistoryRedownload(id) =>
      var k := IndexOf(b.history, id);
      if k < |b.history| then Redownloaded(b, k) else b
    case HistoryDelete(id) => b.(history := WithoutId(b.history, id))
    case UpdatePostStage(id) => b.(queue := WithPost(b.queue, id))
    case FinishPostProcessing(id) => Archived(b, id)
    case _ => b
  }
}
