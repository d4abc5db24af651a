/** A connection: the machine, the bytes still to be read, and the commands written. */
module NntpConnection {
  import opened BodyText
  import opened Common
  import opened NntpMachine

  datatype LineRead = Line(data: Bytes) | End | Failure

  function AsText(s: Bytes): (t: string)
    ensures |t| == |s|
  {
    seq(|s|, i requires 0 <= i < |s| => s[i] as char)
  }

  /** Without the line feeds and carriage returns at the end. */
  function TrimEnd(s: Bytes): Bytes {
    if s != [] && (s[|s| - 1] == CR || s[|s| - 1] == LF) then TrimEnd(s[..|s| - 1]) else s
  }

  /** Exactly the line feeds and carriage returns at the end go. */
  lemma {:induction false} TrimEndStrips(s: Bytes)
    ensures var t := TrimEnd(s);
            && t <= s && (t != [] ==> t[|t| - 1] != CR && t[|t| - 1] != LF)
            && forall k :: |t| <= k < |s| ==> s[k] == CR || s[k] == LF
  {
    if s != [] && (s[|s| - 1] == CR || s[|s| - 1] == LF) {
      TrimEndStrips(s[..|s| - 1]);
    }
  }

  /** What draining the outputs after a body line gives, and what is left. */
  function DrainChunk(outputs: seq<Output>, sofar: Option<Bytes>): (LineRead, seq<Output>) {
    var found := if sofar.Some? then Line(sofar.value) else End;
    if outputs == [] then (found, [])
    else
      var rest := outputs[1..];
      match outputs[0]
      case NeedBodyLine => (found, rest)
      case Emit(event) =>
        if event.BodyChunk? then DrainChunk(rest, Some(event.data))
        else if event.BodyEnded? then (End, rest)
        else (Failure, rest)
      case _ => (Failure, rest)
  }

  function DrainEvent(outputs: seq<Output>): (Option<Event>, seq<Output>) {
    if outputs == [] then (None, [])
    else
      var rest := outputs[1..];
      match outputs[0]
      case NeedBodyLine => DrainEvent(rest)
      case Emit(event) => (if event.Failed? then None else Some(event), rest)
      case _ => (None, rest)
  }

  /** Draining skips requests for lines and stops behind the first event. */
  lemma {:induction false} FirstEvent(requests: seq<Output>, event: Event, rest: seq<Output>)
    requires forall i :: 0 <= i < |requests| ==> requests[i] == NeedBodyLine
    ensures DrainEvent(requests + [Emit(event)] + rest) == (if event.Failed? then None else Some(event), rest)
  {
    var outputs := requests + [Emit(event)] + rest;
    if requests == [] {
      assert outputs[0] == Emit(event) && outputs[1..] == rest;
    } else {
      FirstEvent(requests[1..], event, rest);
      assert outputs[0] == NeedBodyLine && outputs[1..] == requests[1..] + [Emit(event)] + rest;
    }
  }

  lemma {:induction false} JoinPush(lines: seq<Bytes>, line: Bytes)
    ensures Join(lines + [line]) == if lines == [] then line else Join(lines) + [LF] + line
  {
    if |lines| == 1 {
      assert (lines + [line])[1..] == [line];
    } else if |lines| > 1 {
      JoinPush(lines[1..], line);
      assert (lines + [line])[1..] == lines[1..] + [line];
    }
  }

  /** The status lines that open a body: GROUP accepted first where it was sent, then BODY. */
  function Opens(s: State, stream: Bytes): (rest: Option<Bytes>)
    ensures rest.Some? ==> |rest.value| < |stream|
    decreases |stream|
  {
    if stream == [] then None
    else
      var (line, rest) := ReadUntil(stream);
      var code := ResponseCode(AsText(TrimEnd(line)));
      if s == AwaitPipelinedGroupResponse
      then (if code == Some(211) then Opens(AwaitPipelinedBodyResponse, rest) else None)
      else if code == Some(222) then Some(rest) else None
  }

  /** The state in which the status lines leave a machine that waits for them; without a line it goes on waiting. */
  function Settles(s: State, stream: Bytes): State
    decreases |stream|
  {
    if stream == [] then s
    else
      var (line, rest) := ReadUntil(stream);
      var code := ResponseCode(AsText(TrimEnd(line)));
      if s == AwaitPipelinedGroupResponse
      then (if code == Some(211) then Settles(AwaitPipelinedBodyResponse, rest) else Done)
      else if code == Some(222) then ReadingBody
      else if code.None? then Done
      else Idle
  }

  /** The outputs of a machine that is fetching a body, from its request on. */
  ghost predicate Pending(outputs: seq<Output>, s: State) {
    if |outputs| == 0 then false
    else if |outputs| == 1 then
      if FetchingBody(s) then outputs[0] == NeedResponseLine
      else if s == ReadingBody then outputs[0] == NeedBodyLine
      else outputs[0].Emit? && outputs[0].event.Failed?
    else (outputs[0].SendCommand? || (outputs[0].Emit? && outputs[0].event.GroupJoined? && s == AwaitPipelinedBodyResponse))
         && Pending(outputs[1..], s)
  }

  function CommandsIn(outputs: seq<Output>): seq<Command> {
    if outputs == [] then []
    else (if outputs[0].SendCommand? then [outputs[0].command] else []) + CommandsIn(outputs[1..])
  }

  lemma PendingPush(output: Output, rest: seq<Output>, s: State)
    requires Pending(rest, s)
    requires output.SendCommand? || (output.Emit? && output.event.GroupJoined? && s == AwaitPipelinedBodyResponse)
    ensures Pending([output] + rest, s)
  {
    assert ([output] + rest)[1..] == rest;
  }

  lemma ReactionPending(s: State, code: Option<nat>, password: Option<string>, group: Option<string>, message: Option<string>)
    requires FetchingBody(s)
    ensures Pending(Reaction(s, code, password, group, message), AfterCode(s, code, password.Some?))
    ensures CommandsIn(Reaction(s, code, password, group, message)) == []
  {
    if s == AwaitPipelinedGroupResponse && code == Some(211) {
      PendingPush(Emit(GroupJoined(OrEmpty(group))), [NeedResponseLine], AwaitPipelinedBodyResponse);
    }
  }

  /** What the next output can be, and what is left behind it. */
  lemma PendingStep(outputs: seq<Output>, s: State)
    requires Pending(outputs, s)
    ensures outputs != []
    ensures var rest := outputs[1..];
            match outputs[0] {
              case SendCommand(c) => Pending(rest, s) && CommandsIn(outputs) == [c] + CommandsIn(rest)
              case NeedResponseLine => rest == [] && FetchingBody(s) && CommandsIn(outputs) == []
              case NeedBodyLine => rest == [] && s == ReadingBody && CommandsIn(outputs) == []
              case Emit(e) =>
                if e.GroupJoined?
                then s == AwaitPipelinedBodyResponse && Pending(rest, s) && CommandsIn(outputs) == CommandsIn(rest)
                else rest == [] && !FetchingBody(s) && s != ReadingBody && CommandsIn(outputs) == []
              case _ => false
            }
  {
  }

  lemma CommandsOfRequest(a: Command, b: Command)
    ensures CommandsIn([SendCommand(b), NeedResponseLine]) == [b]
    ensures CommandsIn([SendCommand(a), SendCommand(b), NeedResponseLine]) == [a, b]
  {
    var one, two := [SendCommand(b), NeedResponseLine], [SendCommand(a), SendCommand(b), NeedResponseLine];
    assert one[1..] == [NeedResponseLine] && two[1..] == one;
    assert CommandsIn([NeedResponseLine]) == [];
  }

  lemma RequestPending(a: Command, b: Command)
    ensures Pending([SendCommand(b), NeedResponseLine], AwaitBodyResponse)
    ensures Pending([SendCommand(a), SendCommand(b), NeedResponseLine], AwaitPipelinedGroupResponse)
    ensures CommandsIn([SendCommand(b), NeedResponseLine]) == [b]
    ensures CommandsIn([SendCommand(a), SendCommand(b), NeedResponseLine]) == [a, b]
  {
    CommandsOfRequest(a, b);
    PendingPush(SendCommand(b), [NeedResponseLine], AwaitBodyResponse);
    PendingPush(SendCommand(b), [NeedResponseLine], AwaitPipelinedGroupResponse);
    PendingPush(SendCommand(a), [SendCommand(b), NeedResponseLine], AwaitPipelinedGroupResponse);
  }

  class Connection {
    const machine: Machine
    var stream: Bytes
    var written: seq<Command>

    constructor (machine: Machine, stream: Bytes)
      ensures this.machine == machine && this.stream == stream && written == []
    {
      this.machine, this.stream, written := machine, stream, [];
    }

    method DrainBodyChunk() returns (r: LineRead)
      modifies machine`outputs
      ensures (r, machine.outputs) == DrainChunk(old(machine.outputs), None)
      ensures old(machine.Synced()) ==> machine.Synced()
    {
      var found: Option<Bytes> := None;
      var output := machine.PollOutput();
      while output.Some?
        invariant old(machine.Synced()) ==> machine.Synced()
        invariant DrainChunk(old(machine.outputs), None)
               == DrainChunk((if output.Some? then [output.value] else []) + machine.outputs, found)
        invariant output.None? ==> machine.outputs == []
        decreases |machine.outputs|, output.Some?
      {
        ghost var rest := machine.outputs;
        assert ([output.value] + rest)[1..] == rest;
        match output.value {
          case NeedBodyLine =>
            return if found.Some? then Line(found.value) else End;
          case Emit(event) =>
            if event.BodyChunk? {
              found := Some(event.data);
            } else if event.BodyEnded? {
              return End;
            } else {
              return Failure;
            }
          case _ =>
            return Failure;
        }
        output := machine.PollOutput();
        assert (if output.Some? then [output.value] else []) + machine.outputs == rest;
      }
      r := if found.Some? then Line(found.value) else End;
    }

    method DrainSingleEvent() returns (r: Option<Event>)
      modifies machine`outputs
      ensures (r, machine.outputs) == DrainEvent(old(machine.outputs))
      ensures old(machine.Synced()) ==> machine.Synced()
    {
      while true
        invariant old(machine.Synced()) ==> machine.Synced()
        invariant DrainEvent(old(machine.outputs)) == DrainEvent(machine.outputs)
        decreases |machine.outputs|
      {
        ghost var before := machine.outputs;
        var output := machine.PollOutput();
        if output.None? {
          return None;
        }
        assert before[1..] == machine.outputs;
        match output.value {
          case NeedBodyLine =>
          case Emit(event) =>
            return if event.Failed? then None else Some(event);
          case _ =>
            return None;
        }
      }
    }

    /** One line of the body, or its end; running out of bytes ends the session. */
    method ReadLine() returns (r: LineRead)
      requires machine.Synced() && machine.state == ReadingBody && machine.outputs == []
      modifies this`stream, machine
      ensures machine.Synced()
      ensures machine.currentGroup == old(machine.currentGroup)
      ensures if old(stream) == [] then r == Failure && machine.state == Done
              else
                var (line, rest) := ReadUntil(old(stream));
                stream == rest && machine.outputs == []
                && if IsTerminator(Trim(line)) then r == End && machine.state == Idle
                   else r == Line(Unstuff(Trim(line))) && machine.state == ReadingBody
    {
      hide Selected, ReadUntil, Trim, Unstuff;
      if stream == [] {
        machine.HandleInput(Eof);
        var event := DrainSingleEvent();
        return Failure;
      }
      var (line, rest) := ReadUntil(stream);
      stream := rest;
      var trimmed := TrimCrlf(line);
      if IsTerminator(trimmed) {
        machine.HandleInput(BodyEnd);
        var event := DrainSingleEvent();
        return End;
      }
      machine.HandleInput(BodyLine(trimmed));
      r := DrainBodyChunk();
    }

    /** Reads lines to the end and joins them, as the pool does. */
    method ReadBody() returns (r: Option<Bytes>)
      requires machine.Synced() && machine.state == ReadingBody && machine.outputs == []
      modifies this`stream, machine
      ensures machine.Synced() && machine.currentGroup == old(machine.currentGroup)
      ensures match Receive(old(stream), [])
              case Body(data, rest) => r == Some(data) && stream == rest && machine.state == Idle && machine.outputs == []
              case Truncated => r == None && machine.state == Done
    {
      hide Selected, ReadUntil, Trim, Unstuff, IsTerminator;
      var data, first := [], true;
      ghost var lines: seq<Bytes> := [];
      while true
        invariant machine.Synced() && machine.state == ReadingBody && machine.outputs == []
        invariant machine.currentGroup == old(machine.currentGroup)
        invariant data == Join(lines) && (first <==> lines == [])
        invariant Receive(old(stream), []) == Receive(stream, lines)
        decreases |stream|
      {
        ghost var before := stream;
        var line := ReadLine();
        if line.Failure? {
          return None;
        }
        if line.End? {
          return Some(data);
        }
        JoinPush(lines, line.data);
        if !first {
          data := data + [LF];
        }
        data := data + line.data;
        first := false;
        lines := lines + [line.data];
        Shorter(before);
      }
    }

    method ReadResponseLine() returns (line: Option<string>)
      modifies this`stream
      ensures old(stream) == [] <==> line.None?
      ensures line.None? ==> stream == old(stream)
      ensures line.Some? ==> line == Some(AsText(TrimEnd(ReadUntil(old(stream)).0))) && stream == ReadUntil(old(stream)).1
    {
      if stream == [] {
        return None;
      }
      var (text, rest) := ReadUntil(stream);
      stream := rest;
      line := Some(AsText(TrimEnd(text)));
    }

    /** Where a fetch stands: the machine waits for the body, its outputs are the ones still due. */
    ghost predicate Fetching()
      reads this, machine
    {
      && machine.Synced() && Pending(machine.outputs, machine.state)
      && (FetchingBody(machine.state) || machine.state == ReadingBody || machine.state == Idle || machine.state == Done)
    }

    /** A status line arrives for a fetch that has asked for it. */
    method AnswerFetch(line: string)
      requires machine.Synced() && machine.outputs == [] && FetchingBody(machine.state)
      modifies machine
      ensures Fetching() && CommandsIn(machine.outputs) == []
      ensures var code := ResponseCode(line);
              if old(machine.state) == AwaitPipelinedGroupResponse then
                if code == Some(211) then
                  machine.state == AwaitPipelinedBodyResponse
                  && machine.currentGroup == Some(OrEmpty(old(machine.pendingGroup)))
                else machine.state == Done
              else if code == Some(222) then
                machine.state == ReadingBody && machine.currentGroup == old(machine.currentGroup)
              else machine.state == if code.None? then Done else Idle
    {
      hide Selected, ResponseCode, Pending, CommandsIn;
      ReactionPending(machine.state, ResponseCode(line), machine.pendingPassword, machine.pendingGroup, machine.pendingMessage);
      ghost var reaction := Reaction(machine.state, ResponseCode(line), machine.pendingPassword,
                                     machine.pendingGroup, machine.pendingMessage);
      machine.HandleInput(ResponseLine(line));
      assert machine.outputs == reaction;
    }

    /** How a fetch will end: in this state, with these bytes left and this group selected, or not at all. */
    ghost predicate Heading(opens: Option<Bytes>, ends: State, group: Option<string>, pipelined: bool)
      reads this, machine
    {
      var s := machine.state;
      && (!pipelined ==> s != AwaitPipelinedGroupResponse && s != AwaitPipelinedBodyResponse)
      && (FetchingBody(s) ==> opens == Opens(s, stream) && ends == Settles(s, stream))
      && (s == ReadingBody ==> opens == Some(stream))
      && (s == Idle || s == Done ==> opens == None)
      && (!FetchingBody(s) ==> ends == s)
      && (FetchingBody(s) || s == ReadingBody ==> group == GroupAfter(s, machine.pendingGroup, machine.currentGroup))
    }

    /** Reads the status line that was asked for, if there is one. */
    method AnswerNext(ghost opens: Option<Bytes>, ghost ends: State, ghost group: Option<string>, ghost pipelined: bool)
      returns (more: bool)
      requires machine.Synced() && machine.outputs == [] && FetchingBody(machine.state) && Heading(opens, ends, group, pipelined)
      modifies this`stream, machine
      ensures more ==> Fetching() && Heading(opens, ends, group, pipelined)
      ensures more ==> CommandsIn(machine.outputs) == [] && |stream| < |old(stream)|
      ensures !more ==> machine.Synced() && opens == None && machine.state == ends
    {
      hide Machine.Synced, ReadUntil, TrimEnd, ResponseCode, AsText, Pending, CommandsIn;
      ghost var bytes := stream;
      var line := ReadResponseLine();
      if line.None? {
        return false;
      }
      Shorter(bytes);
      AnswerFetch(line.value);
      return true;
    }

    /** Writes commands and reads status lines until the body begins. */
    method DriveUntilBodyReady(pipelined: bool) returns (ready: bool)
      requires Fetching() && FetchingBody(machine.state)
      requires !pipelined ==> machine.state == AwaitBodyResponse
      modifies this`stream, this`written, machine
      ensures machine.Synced()
      ensures written == old(written) + CommandsIn(old(machine.outputs))
      ensures ready <==> Opens(old(machine.state), old(stream)).Some?
      ensures machine.state == Settles(old(machine.state), old(stream))
      ensures ready ==>
                && machine.state == ReadingBody && machine.outputs == []
                && stream == Opens(old(machine.state), old(stream)).value
                && machine.currentGroup == GroupAfter(old(machine.state), old(machine.pendingGroup), old(machine.currentGroup))
    {
      hide Machine.Synced, Opens, Settles, GroupAfter, Pending, CommandsIn;
      ghost var opens, ends := Opens(machine.state, stream), Settles(machine.state, stream);
      ghost var group := GroupAfter(machine.state, machine.pendingGroup, machine.currentGroup);
      ReadingKeepsGroup(machine.pendingGroup, machine.currentGroup);
      while true
        invariant Fetching() && Heading(opens, ends, group, pipelined)
        invariant written + CommandsIn(machine.outputs) == old(written) + CommandsIn(old(machine.outputs))
        decreases |stream|, |machine.outputs|
      {
        ghost var before := machine.outputs;
        PendingStep(before, machine.state);
        ReadingKeepsGroup(machine.pendingGroup, machine.currentGroup);
        var output := machine.PollOutput();
        assert before[1..] == machine.outputs;
        match output {
          case None =>
            return false;
          case Some(SendCommand(command)) =>
            written := written + [command];
          case Some(NeedResponseLine) =>
            var more := AnswerNext(opens, ends, group, pipelined);
            if !more {
              return false;
            }
          case Some(NeedBodyLine) =>
            return true;
          case Some(Emit(event)) =>
            if !(pipelined && event.GroupJoined?) {
              return false;
            }
          case _ =>
            return false;
        }
      }
    }

    /** What the pool does to fetch an article: GROUP and BODY pipelined, or BODY alone. */
    method Fetch(group: Option<string>, message: string) returns (r: Option<Bytes>)
      requires machine.Synced() && machine.state == Idle && machine.outputs == []
      modifies this`stream, this`written, machine
      ensures machine.Synced()
      ensures written == old(written)
                + (if Joins(group, old(machine.currentGroup)) then [Group(group.value), BodyOf(message)] else [BodyOf(message)])
      ensures var fetched := Fetched(Joins(group, old(machine.currentGroup)), old(stream));
              if fetched.None? then r == None else r == Some(fetched.value.0) && stream == fetched.value.1
      ensures var s := if Joins(group, old(machine.currentGroup)) then AwaitPipelinedGroupResponse else AwaitBodyResponse;
              r.None? ==> machine.state == if Opens(s, old(stream)).Some? then Done else Settles(s, old(stream))
      ensures r.Some? ==>
                && machine.state == Idle && machine.outputs == []
                && machine.currentGroup == if group.Some? then group else old(machine.currentGroup)
    {
      hide Selected, Machine.Synced, Receive, Opens, Settles, Pending, CommandsIn;
      RequestPending(Group(OrEmpty(group)), BodyOf(message));
      if group.Some? {
        machine.RequestGroupBody(group.value, message);
      } else {
        machine.RequestBody(message);
      }
      assert machine.outputs == (if machine.state == AwaitBodyResponse then [SendCommand(BodyOf(message)), NeedResponseLine]
                                 else [SendCommand(Group(OrEmpty(group))), SendCommand(BodyOf(message)), NeedResponseLine]);
      var ready := DriveUntilBodyReady(group.Some?);
      if !ready {
        return None;
      }
      r := ReadBody();
    }
  }

  /** The group the server has selected once the fetch is open. */
  function GroupAfter(s: State, pending: Option<string>, current: Option<string>): Option<string> {
    if s == AwaitPipelinedGroupResponse then Some(OrEmpty(pending)) else current
  }

  lemma ReadingKeepsGroup(pending: Option<string>, current: Option<string>)
    ensures GroupAfter(ReadingBody, pending, current) == current
  {
  }

  predicate Joins(group: Option<string>, current: Option<string>) {
    group.Some? && group != current
  }

  /** The body that a stream of replies yields, with or without a GROUP reply in front, and what is left. */
  function Fetched(joins: bool, stream: Bytes): Option<(Bytes, Bytes)> {
    match Opens(if joins then AwaitPipelinedGroupResponse else AwaitBodyResponse, stream)
    case None => None
    case Some(rest) =>
      match Receive(rest, [])
      case Body(data, more) => Some((data, more))
      case Truncated => None
  }

  /** A complete status line with this code. */
  ghost predicate StatusLine(line: Bytes, code: nat) {
    line != [] && LineEnd(line) == |line| - 1 && ResponseCode(AsText(TrimEnd(line))) == Some(code)
  }

  lemma ReadStatusLine(line: Bytes, code: nat, more: Bytes)
    requires StatusLine(line, code)
    ensures ReadUntil(line + more) == (line, more)
  {
    var s := line + more;
    assert s[|line| - 1] == LF;
    assert forall j :: 0 <= j < |line| - 1 ==> s[j] == line[j];
    assert LineEnd(s) == |line| - 1;
    assert s[..|line|] == line && s[|line|..] == more;
  }

  lemma OpensBody(s: State, line: Bytes, more: Bytes)
    requires StatusLine(line, 222) && (s == AwaitBodyResponse || s == AwaitPipelinedBodyResponse)
    ensures Opens(s, line + more) == Some(more)
  {
    ReadStatusLine(line, 222, more);
    hide ReadUntil, TrimEnd, ResponseCode, AsText;
    assert (line + more)[0] == line[0];
  }

  lemma OpensGroup(line: Bytes, more: Bytes)
    requires StatusLine(line, 211)
    ensures Opens(AwaitPipelinedGroupResponse, line + more) == Opens(AwaitPipelinedBodyResponse, more)
  {
    ReadStatusLine(line, 211, more);
    hide ReadUntil, TrimEnd, ResponseCode, AsText;
    assert (line + more)[0] == line[0];
  }

  /** When the server accepts, the fetch yields the article without carriage returns and reads nothing beyond it. */
  lemma FetchRoundTrip(joined: Bytes, opening: Bytes, raw: Bytes, more: Bytes)
    requires StatusLine(joined, 211) && StatusLine(opening, 222)
    ensures Fetched(false, opening + (Wire(raw) + more)) == Some((Strip(raw), more))
    ensures Fetched(true, joined + (opening + (Wire(raw) + more))) == Some((Strip(raw), more))
  {
    var body := Wire(raw) + more;
    RoundTrip(raw, more);
    OpensBody(AwaitBodyResponse, opening, body);
    OpensBody(AwaitPipelinedBodyResponse, opening, body);
    OpensGroup(joined, opening + body);
    hide StatusLine, Opens, Wire, Strip, Receive;
  }

  lemma Shorter(s: Bytes)
    requires s != []
    ensures |ReadUntil(s).1| < |s|
  {
  }
}
