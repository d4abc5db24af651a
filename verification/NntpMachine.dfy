/** The NNTP client as a machine without I/O: inputs in, outputs queued. */
module NntpMachine {
  import opened BodyText
  import opened Common

  datatype Command =
    | StartTls
    | Compress
    | AuthUser(user: string)
    | AuthPass(pass: string)
    | Group(group: string)
    | Stat(message: string)
    | BodyOf(message: string)
    | Quit

  datatype ProtoError = AuthFailed | AuthRequired | ArticleNotFound(message: string) | UnexpectedResponse(code: nat) | Protocol

  datatype Event =
    | GreetingOk(code: nat)
    | Authenticated
    | GroupJoined(group: string)
    | StatResult(found: bool)
    | BodyChunk(data: Bytes)
    | BodyEnded
    | CompressActive
    | QuitAck
    | Failed(error: ProtoError)

  datatype Output =
    | SendCommand(command: Command)
    | NeedResponseLine
    | NeedBodyLine
    | UpgradeToTls
    | UpgradeToDeflate
    | Emit(event: Event)

  datatype Input = ResponseLine(line: string) | BodyLine(data: Bytes) | BodyEnd | Eof

  datatype State =
    | AwaitGreeting | Idle | AwaitAuthUser | AwaitAuthPass | AwaitGroup | AwaitStat | AwaitBodyResponse | ReadingBody
    | AwaitStartTlsResponse | AwaitStartTlsGreeting | AwaitPipelinedGroupResponse | AwaitPipelinedBodyResponse
    | AwaitCompressResponse | AwaitQuit | Done

  // ---- Response codes ----

  predicate IsDigit(c: char) {
    '0' <= c <= '9'
  }

  function DigitValue(c: char): nat
    requires IsDigit(c)
  {
    c as nat - '0' as nat
  }

  /** The first three characters read as an unsigned number; a leading plus sign is allowed. */
  function ResponseCode(line: string): (code: Option<nat>)
    ensures code.Some? ==> code.value < 1000
  {
    if |line| < 3 || !IsDigit(line[1]) || !IsDigit(line[2]) then None
    else if IsDigit(line[0]) then Some(100 * DigitValue(line[0]) + 10 * DigitValue(line[1]) + DigitValue(line[2]))
    else if line[0] == '+' then Some(10 * DigitValue(line[1]) + DigitValue(line[2]))
    else None
  }

  /** The character of a digit. */
  ghost function DigitOf(d: nat): char
    requires d < 10
  {
    "0123456789"[d]
  }

  /** A line has a code if and only if it starts with the three digits of it, or with a plus sign and its last two. */
  lemma ResponseCodeReads(line: string, code: nat)
    ensures ResponseCode(line) == Some(code) <==>
              && code < 1000 && |line| >= 3 && line[1] == DigitOf(code / 10 % 10) && line[2] == DigitOf(code % 10)
              && (line[0] == DigitOf(code / 100) || (line[0] == '+' && code < 100))
  {
    if |line| >= 3 && code < 1000 {
      var a, b, c := code / 100, code / 10 % 10, code % 10;
      ThreeDigits(code);
      IsDigitOf(line[0], a);
      IsDigitOf(line[1], b);
      IsDigitOf(line[2], c);
      hide IsDigit, DigitOf;
      if ResponseCode(line) == Some(code) {
        var x := if IsDigit(line[0]) then DigitValue(line[0]) else 0;
        SameDigits(x, DigitValue(line[1]), DigitValue(line[2]), a, b, c);
      }
    }
  }

  lemma IsDigitOf(c: char, d: nat)
    requires d < 10
    ensures c == DigitOf(d) <==> IsDigit(c) && DigitValue(c) == d
    ensures IsDigit(c) ==> DigitValue(c) < 10
    ensures !IsDigit('+')
  {
    assert DigitOf(d) as nat == '0' as nat + d;
  }

  lemma ThreeDigits(n: nat)
    requires n < 1000
    ensures n == 100 * (n / 100) + 10 * (n / 10 % 10) + n % 10 && n / 100 < 10
  {
    assert n == 10 * (n / 10) + n % 10 && n / 10 == 10 * (n / 10 / 10) + n / 10 % 10 && n / 10 / 10 == n / 100;
  }

  lemma SameDigits(x: nat, y: nat, z: nat, a: nat, b: nat, c: nat)
    requires x < 10 && y < 10 && z < 10 && a < 10 && b < 10 && c < 10
    requires 100 * x + 10 * y + z == 100 * a + 10 * b + c
    ensures x == a && y == b && z == c
  {
  }

  // ---- What the server owes ----

  /** One status line the server owes: for connecting, for a command, for the TLS session. */
  datatype Debt = Connection | Reply(command: Command) | TlsSession

  /** The newsgroup the server has selected after answering the first debts with these codes. */
  function Selected(debts: seq<Debt>, codes: seq<Option<nat>>): Option<string>
    requires |codes| <= |debts|
  {
    if codes == [] then None
    else
      var n := |codes| - 1;
      var before := Selected(debts, codes[..n]);
      if debts[n].Reply? && debts[n].command.Group? && codes[n] == Some(211) then Some(debts[n].command.group)
      else if debts[n] == Reply(StartTls) && codes[n] == Some(382) then None
      else before
  }

  /** The server's group is the last one it accepted, unless TLS started since. */
  lemma {:induction false} SelectedIsLastAccepted(debts: seq<Debt>, codes: seq<Option<nat>>, group: string)
    requires |codes| <= |debts|
    ensures Selected(debts, codes) == Some(group) <==>
              exists i :: 0 <= i < |codes| && debts[i] == Reply(Group(group)) && codes[i] == Some(211)
                          && forall j :: i < j < |codes| ==> !Resets(debts[j], codes[j])
  {
    if codes != [] {
      var n := |codes| - 1;
      SelectedIsLastAccepted(debts, codes[..n], group);
      assert forall j :: 0 <= j < n ==> codes[..n][j] == codes[j];
    }
  }

  predicate Resets(debt: Debt, code: Option<nat>) {
    (debt.Reply? && debt.command.Group? && code == Some(211)) || (debt == Reply(StartTls) && code == Some(382))
  }

  lemma {:induction false} SelectedPrefix(debts: seq<Debt>, codes: seq<Option<nat>>, more: seq<Debt>)
    requires |codes| <= |debts|
    ensures Selected(debts + more, codes) == Selected(debts, codes)
  {
    if codes != [] {
      SelectedPrefix(debts, codes[..|codes| - 1], more);
    }
  }

  lemma SelectedStep(debts: seq<Debt>, codes: seq<Option<nat>>, code: Option<nat>)
    requires |codes| < |debts|
    ensures Selected(debts, codes + [code])
         == if debts[|codes|].Reply? && debts[|codes|].command.Group? && code == Some(211)
            then Some(debts[|codes|].command.group)
            else if debts[|codes|] == Reply(StartTls) && code == Some(382) then None
            else Selected(debts, codes)
  {
    assert (codes + [code])[..|codes|] == codes;
  }

  /** How many status lines the machine still expects. */
  function Expected(s: State): nat {
    match s
    case Idle => 0
    case ReadingBody => 0
    case Done => 0
    case AwaitPipelinedGroupResponse => 2
    case _ => 1
  }

  /** Whether the machine has asked for a status line and is waiting for it. */
  function Asking(s: State): nat {
    if Expected(s) == 0 then 0 else 1
  }

  // ---- The reaction to a status line, as a table ----

  function AfterCode(s: State, code: Option<nat>, password: bool): State
    requires Expected(s) > 0
  {
    if code.None? then (if s == AwaitCompressResponse then Idle else Done)
    else
      var c := code.value;
      match s
      case AwaitGreeting => if c == 200 || c == 201 then Idle else Done
      case AwaitStartTlsGreeting => if c == 200 || c == 201 then Idle else Done
      case AwaitAuthUser => if c == 281 then Idle else if c == 381 && password then AwaitAuthPass else Done
      case AwaitAuthPass => if c == 281 then Idle else Done
      case AwaitPipelinedGroupResponse => if c == 211 then AwaitPipelinedBodyResponse else Done
      case AwaitPipelinedBodyResponse => if c == 222 then ReadingBody else Idle
      case AwaitBodyResponse => if c == 222 then ReadingBody else Idle
      case AwaitStartTlsResponse => if c == 382 then AwaitStartTlsGreeting else Done
      case AwaitQuit => Done
      case _ => Idle
  }

  function BodyRefused(code: nat, message: Option<string>): ProtoError {
    if code == 430 then ArticleNotFound(if message.Some? then message.value else "unknown")
    else if code == 480 then AuthRequired
    else UnexpectedResponse(code)
  }

  function OrEmpty(o: Option<string>): string {
    if o.Some? then o.value else ""
  }

  function Reaction(s: State, code: Option<nat>, password: Option<string>, group: Option<string>,
                    message: Option<string>): seq<Output>
    requires Expected(s) > 0
  {
    if s == AwaitQuit then [Emit(QuitAck)]
    else if code.None? then [Emit(Failed(Protocol))]
    else
      var c := code.value;
      var unexpected := [Emit(Failed(UnexpectedResponse(c)))];
      match s
      case AwaitGreeting => if c == 200 || c == 201 then [Emit(GreetingOk(c))] else unexpected
      case AwaitStartTlsGreeting => if c == 200 || c == 201 then [Emit(GreetingOk(c))] else unexpected
      case AwaitAuthUser =>
        if c == 281 then [Emit(Authenticated)]
        else if c == 381 && password.Some? then [SendCommand(AuthPass(password.value)), NeedResponseLine]
        else [Emit(Failed(AuthFailed))]
      case AwaitAuthPass => if c == 281 then [Emit(Authenticated)] else [Emit(Failed(AuthFailed))]
      case AwaitGroup => if c == 211 then [Emit(GroupJoined(OrEmpty(group)))] else unexpected
      case AwaitPipelinedGroupResponse =>
        if c == 211 then [Emit(GroupJoined(OrEmpty(group))), NeedResponseLine] else unexpected
      case AwaitPipelinedBodyResponse => if c == 222 then [NeedBodyLine] else [Emit(Failed(BodyRefused(c, message)))]
      case AwaitBodyResponse => if c == 222 then [NeedBodyLine] else [Emit(Failed(BodyRefused(c, message)))]
      case AwaitStat =>
        if c == 223 then [Emit(StatResult(true))] else if c == 430 then [Emit(StatResult(false))] else unexpected
      case AwaitStartTlsResponse => if c == 382 then [UpgradeToTls, NeedResponseLine] else unexpected
      case AwaitCompressResponse => if c == 206 then [UpgradeToDeflate, Emit(CompressActive)] else unexpected
      case _ => []
  }

  // ---- What the reactions say ----

  /** A greeting or a session after TLS is welcome with 200 or 201. */
  lemma GreetingAnswered(s: State, code: nat, password: Option<string>, group: Option<string>, message: Option<string>)
    requires s == AwaitGreeting || s == AwaitStartTlsGreeting
    ensures var (state, outputs) := (AfterCode(s, Some(code), password.Some?), Reaction(s, Some(code), password, group, message));
            if code == 200 || code == 201 then state == Idle && outputs == [Emit(GreetingOk(code))]
            else state == Done && outputs == [Emit(Failed(UnexpectedResponse(code)))]
  {
  }

  /** Login succeeds with 281; a 381 asks for the password, once. */
  lemma LoginAnswered(s: State, code: nat, password: Option<string>, group: Option<string>, message: Option<string>)
    requires s == AwaitAuthUser || s == AwaitAuthPass
    ensures var (state, outputs) := (AfterCode(s, Some(code), password.Some?), Reaction(s, Some(code), password, group, message));
            if code == 281 then state == Idle && outputs == [Emit(Authenticated)]
            else if code == 381 && s == AwaitAuthUser && password.Some? then
              state == AwaitAuthPass && outputs == [SendCommand(AuthPass(password.value)), NeedResponseLine]
            else state == Done && outputs == [Emit(Failed(AuthFailed))]
  {
  }

  /** A 211 joins the group; any other code is refused, which ends the session when a BODY is on its way behind. */
  lemma GroupAnswered(code: nat, password: Option<string>, group: string, message: Option<string>)
    ensures var (state, outputs) := (AfterCode(AwaitGroup, Some(code), password.Some?),
                                     Reaction(AwaitGroup, Some(code), password, Some(group), message));
            state == Idle && outputs == if code == 211 then [Emit(GroupJoined(group))] else [Emit(Failed(UnexpectedResponse(code)))]
    ensures var (state, outputs) := (AfterCode(AwaitPipelinedGroupResponse, Some(code), password.Some?),
                                     Reaction(AwaitPipelinedGroupResponse, Some(code), password, Some(group), message));
            if code == 211 then state == AwaitPipelinedBodyResponse && outputs == [Emit(GroupJoined(group)), NeedResponseLine]
            else state == Done && outputs == [Emit(Failed(UnexpectedResponse(code)))]
  {
  }

  /** A 222 is followed by the body; 430 names the article as not found, 480 asks for a login, and the session goes on. */
  lemma BodyAnswered(s: State, code: nat, password: Option<string>, group: Option<string>, message: string)
    requires s == AwaitBodyResponse || s == AwaitPipelinedBodyResponse
    ensures var (state, outputs) := (AfterCode(s, Some(code), password.Some?),
                                     Reaction(s, Some(code), password, group, Some(message)));
            if code == 222 then state == ReadingBody && outputs == [NeedBodyLine]
            else
              && state == Idle
              && outputs == if code == 430 then [Emit(Failed(ArticleNotFound(message)))]
                            else if code == 480 then [Emit(Failed(AuthRequired))]
                            else [Emit(Failed(UnexpectedResponse(code)))]
  {
  }

  /** A 223 says that the article exists, a 430 that it does not. */
  lemma StatAnswered(code: nat, password: Option<string>, group: Option<string>, message: Option<string>)
    ensures var (state, outputs) := (AfterCode(AwaitStat, Some(code), password.Some?),
                                     Reaction(AwaitStat, Some(code), password, group, message));
            && state == Idle
            && outputs == if code == 223 then [Emit(StatResult(true))]
                          else if code == 430 then [Emit(StatResult(false))]
                          else [Emit(Failed(UnexpectedResponse(code)))]
  {
  }

  /** TLS starts with 382 and a new greeting, compression with 206; without compression the session goes on. */
  lemma UpgradeAnswered(code: nat, password: Option<string>, group: Option<string>, message: Option<string>)
    ensures var (state, outputs) := (AfterCode(AwaitStartTlsResponse, Some(code), password.Some?),
                                     Reaction(AwaitStartTlsResponse, Some(code), password, group, message));
            if code == 382 then state == AwaitStartTlsGreeting && outputs == [UpgradeToTls, NeedResponseLine]
            else state == Done && outputs == [Emit(Failed(UnexpectedResponse(code)))]
    ensures var (state, outputs) := (AfterCode(AwaitCompressResponse, Some(code), password.Some?),
                                     Reaction(AwaitCompressResponse, Some(code), password, group, message));
            && state == Idle
            && outputs == if code == 206 then [UpgradeToDeflate, Emit(CompressActive)] else [Emit(Failed(UnexpectedResponse(code)))]
  {
  }

  /** A line without a code is an error that ends the session, unless compression or the end was asked for. */
  lemma NoCodeAnswered(s: State, password: Option<string>, group: Option<string>, message: Option<string>)
    requires Expected(s) > 0
    ensures AfterCode(s, None, password.Some?) == if s == AwaitCompressResponse then Idle else Done
    ensures Reaction(s, None, password, group, message) == if s == AwaitQuit then [Emit(QuitAck)] else [Emit(Failed(Protocol))]
  {
  }

  class Machine {
    var state: State
    var outputs: seq<Output>
    var currentGroup: Option<string>
    var pendingGroup: Option<string>
    var pendingPassword: Option<string>
    var pendingMessage: Option<string>
    var authenticated: bool

    /** The status lines the server owes, the codes that came, and how many lines were asked for. */
    ghost var debts: seq<Debt>
    ghost var codes: seq<Option<nat>>
    ghost var asked: nat

    /** What the next debts are for in each state. */
    ghost predicate Matched()
      reads this
    {
      && |debts| == |codes| + Expected(state)
      && var next := if |codes| < |debts| then debts[|codes|] else Connection;
         match state
         case AwaitGreeting => next == Connection
         case AwaitGroup => pendingGroup.Some? && next == Reply(Group(pendingGroup.value))
         case AwaitPipelinedGroupResponse =>
           && pendingGroup.Some? && pendingMessage.Some?
           && next == Reply(Group(pendingGroup.value)) && debts[|codes| + 1] == Reply(BodyOf(pendingMessage.value))
         case AwaitPipelinedBodyResponse =>
           && pendingMessage.Some? && next == Reply(BodyOf(pendingMessage.value))
           && |codes| > 0 && currentGroup.Some? && debts[|codes| - 1] == Reply(Group(currentGroup.value))
         case AwaitBodyResponse => pendingMessage.Some? && next == Reply(BodyOf(pendingMessage.value))
         case AwaitStartTlsResponse => next == Reply(StartTls)
         case AwaitStartTlsGreeting => next == TlsSession
         case AwaitAuthUser => pendingPassword.Some? && next.Reply? && next.command.AuthUser?
         case AwaitAuthPass => next.Reply? && next.command.AuthPass?
         case AwaitStat => next.Reply? && next.command.Stat?
         case AwaitCompressResponse => next == Reply(Compress)
         case AwaitQuit => next == Reply(Quit)
         case _ => true
    }

    /**
     * In step with the server: it owes as many lines as the state expects, none was asked for that
     * is not owed, and the cached group is the one the server has selected.
     */
    ghost predicate Synced()
      reads this
    {
      && asked <= |debts|
      && (state != Done ==> Matched() && asked == |codes| + Asking(state) && currentGroup == Selected(debts, codes))
    }

    constructor ()
      ensures state == AwaitGreeting && outputs == [NeedResponseLine] && currentGroup == None && !authenticated
      ensures Synced() && debts == [Connection] && codes == []
    {
      state, outputs := AwaitGreeting, [NeedResponseLine];
      currentGroup, pendingGroup, pendingPassword, pendingMessage := None, None, None, None;
      authenticated := false;
      debts, codes, asked := [Connection], [], 1;
    }

    constructor AfterGreeting()
      ensures state == Idle && outputs == [] && currentGroup == None && !authenticated
      ensures Synced() && debts == [] && codes == []
    {
      state, outputs := Idle, [];
      currentGroup, pendingGroup, pendingPassword, pendingMessage := None, None, None, None;
      authenticated := false;
      debts, codes, asked := [], [], 0;
    }

    // ---- Outputs ----

    method Send(command: Command)
      modifies this`outputs, this`debts
      ensures outputs == old(outputs) + [SendCommand(command)] && debts == old(debts) + [Reply(command)]
      ensures |codes| <= |old(debts)| ==> |codes| <= |debts| && Selected(debts, codes) == Selected(old(debts), codes)
    {
      if |codes| <= |debts| {
        SelectedPrefix(debts, codes, [Reply(command)]);
      }
      outputs := outputs + [SendCommand(command)];
      debts := debts + [Reply(command)];
    }

    method NeedLine()
      modifies this`outputs, this`asked
      ensures outputs == old(outputs) + [NeedResponseLine] && asked == old(asked) + 1
    {
      outputs := outputs + [NeedResponseLine];
      asked := asked + 1;
    }

    method Push(output: Output)
      requires output.Emit? || output == NeedBodyLine || output == UpgradeToDeflate
      modifies this`outputs
      ensures outputs == old(outputs) + [output]
    {
      outputs := outputs + [output];
    }

    method EmitError(error: ProtoError)
      modifies this`outputs
      ensures outputs == old(outputs) + [Emit(Failed(error))]
    {
      Push(Emit(Failed(error)));
    }

    method PollOutput() returns (r: Option<Output>)
      modifies this`outputs
      ensures old(outputs) == [] ==> r.None? && outputs == []
      ensures old(outputs) != [] ==> r.Some? && old(outputs) == [r.value] + outputs
      ensures old(Synced()) ==> Synced()
    {
      if outputs == [] {
        return None;
      }
      r := Some(outputs[0]);
      outputs := outputs[1..];
    }

    // ---- Requests, made while idle ----

    /** One command, one line asked for. */
    ghost predicate Asked(before: seq<Debt>, command: Command)
      reads this
    {
      Synced() && debts == before + [Reply(command)] && |debts| == |codes| + 1
    }

    method RequestStartTls()
      modifies this`outputs, this`debts, this`asked, this`state
      ensures outputs == old(outputs) + [SendCommand(StartTls), NeedResponseLine] && state == AwaitStartTlsResponse
      ensures old(Synced() && state == Idle) ==> Asked(old(debts), StartTls)
    {
      Send(StartTls);
      NeedLine();
      state := AwaitStartTlsResponse;
    }

    method RequestCompress()
      modifies this`outputs, this`debts, this`asked, this`state
      ensures outputs == old(outputs) + [SendCommand(Compress), NeedResponseLine] && state == AwaitCompressResponse
      ensures old(Synced() && state == Idle) ==> Asked(old(debts), Compress)
    {
      Send(Compress);
      NeedLine();
      state := AwaitCompressResponse;
    }

    method RequestAuth(user: string, pass: string)
      modifies this`outputs, this`debts, this`asked, this`state, this`pendingPassword
      ensures outputs == old(outputs) + [SendCommand(AuthUser(user)), NeedResponseLine] && state == AwaitAuthUser
      ensures pendingPassword == Some(pass)
      ensures old(Synced() && state == Idle) ==> Asked(old(debts), AuthUser(user))
    {
      hide Selected;
      pendingPassword := Some(pass);
      Send(AuthUser(user));
      NeedLine();
      state := AwaitAuthUser;
    }

    /** Skips the command when the group is selected already, which the server agrees with. */
    method RequestGroup(group: string)
      modifies this`outputs, this`debts, this`asked, this`state, this`pendingGroup
      ensures old(currentGroup) == Some(group) ==>
                outputs == old(outputs) + [Emit(GroupJoined(group))] && state == old(state) && debts == old(debts)
      ensures old(currentGroup) != Some(group) ==>
                && outputs == old(outputs) + [SendCommand(Group(group)), NeedResponseLine]
                && state == AwaitGroup && pendingGroup == Some(group)
      ensures old(Synced() && state == Idle) ==>
                if old(currentGroup) == Some(group) then Synced() && Selected(debts, codes) == Some(group)
                else Asked(old(debts), Group(group))
    {
      hide Selected;
      if currentGroup == Some(group) {
        Push(Emit(GroupJoined(group)));
        return;
      }
      pendingGroup := Some(group);
      Send(Group(group));
      NeedLine();
      state := AwaitGroup;
    }

    method RequestStat(message: string)
      modifies this`outputs, this`debts, this`asked, this`state
      ensures outputs == old(outputs) + [SendCommand(Stat(message)), NeedResponseLine] && state == AwaitStat
      ensures old(Synced() && state == Idle) ==> Asked(old(debts), Stat(message))
    {
      hide Selected;
      Send(Stat(message));
      NeedLine();
      state := AwaitStat;
    }

    method RequestBody(message: string)
      modifies this`outputs, this`debts, this`asked, this`state, this`pendingMessage
      ensures outputs == old(outputs) + [SendCommand(BodyOf(message)), NeedResponseLine] && state == AwaitBodyResponse
      ensures pendingMessage == Some(message)
      ensures old(Synced() && state == Idle) ==> Asked(old(debts), BodyOf(message))
      ensures |codes| <= |old(debts)| ==> |codes| <= |debts| && Selected(debts, codes) == Selected(old(debts), codes)
    {
      hide Selected;
      pendingMessage := Some(message);
      Send(BodyOf(message));
      NeedLine();
      state := AwaitBodyResponse;
    }

    /** Pipelines GROUP and BODY; with the group selected already, BODY alone fetches from that group. */
    method RequestGroupBody(group: string, message: string)
      modifies this`outputs, this`debts, this`asked, this`state, this`pendingGroup, this`pendingMessage
      ensures old(currentGroup) == Some(group) ==>
                outputs == old(outputs) + [SendCommand(BodyOf(message)), NeedResponseLine] && state == AwaitBodyResponse
      ensures old(currentGroup) != Some(group) ==>
                && outputs == old(outputs) + [SendCommand(Group(group)), SendCommand(BodyOf(message)), NeedResponseLine]
                && state == AwaitPipelinedGroupResponse && pendingGroup == Some(group)
      ensures pendingMessage == Some(message)
      ensures old(Synced() && state == Idle) ==> Synced() && FetchesFrom(group, message)
    {
      hide Selected;
      if currentGroup == Some(group) {
        RequestBody(message);
        return;
      }
      pendingGroup := Some(group);
      pendingMessage := Some(message);
      Send(Group(group));
      Send(BodyOf(message));
      NeedLine();
      state := AwaitPipelinedGroupResponse;
    }

    /** The BODY command on its way will be executed with the group selected, if the GROUP succeeds. */
    ghost predicate FetchesFrom(group: string, message: string)
      reads this
    {
      || (&& state == AwaitBodyResponse && |debts| == |codes| + 1 && debts[|codes|] == Reply(BodyOf(message))
          && Selected(debts, codes) == Some(group))
      || (&& state == AwaitPipelinedGroupResponse && |debts| == |codes| + 2
          && debts[|codes|..] == [Reply(Group(group)), Reply(BodyOf(message))])
      || (&& state == AwaitPipelinedBodyResponse && |debts| == |codes| + 1 && debts[|codes|] == Reply(BodyOf(message))
          && Selected(debts, codes) == Some(group))
      || (state == ReadingBody && |debts| == |codes| && Selected(debts, codes) == Some(group))
    }

    method RequestQuit()
      modifies this`outputs, this`debts, this`asked, this`state
      ensures outputs == old(outputs) + [SendCommand(Quit), NeedResponseLine] && state == AwaitQuit
      ensures old(Synced() && state == Idle) ==> Asked(old(debts), Quit)
    {
      hide Selected;
      Send(Quit);
      NeedLine();
      state := AwaitQuit;
    }

    // ---- Inputs ----

    /** The effect of a status line the machine was waiting for. */
    ghost predicate Reacted(s: State, code: Option<nat>, before: seq<Output>, password: Option<string>,
                            group: Option<string>, message: Option<string>, selected: Option<string>)
      requires Expected(s) > 0
      reads this
    {
      && state == AfterCode(s, code, password.Some?)
      && outputs == before + Reaction(s, code, password, group, message)
      && currentGroup == if (s == AwaitGroup || s == AwaitPipelinedGroupResponse) && code == Some(211)
                         then Some(OrEmpty(group)) else selected
    }

    /** STARTTLS was accepted: the machine takes it that a greeting follows on the TLS session. */
    method Upgrade()
      modifies this`outputs, this`debts
      ensures outputs == old(outputs) + [UpgradeToTls] && debts == old(debts) + [TlsSession]
      ensures |codes| <= |old(debts)| ==> |codes| <= |debts| && Selected(debts, codes) == Selected(old(debts), codes)
    {
      if |codes| <= |debts| {
        SelectedPrefix(debts, codes, [TlsSession]);
      }
      outputs := outputs + [UpgradeToTls];
      debts := debts + [TlsSession];
    }

    /** The status line answers the oldest debt. */
    ghost method Book(code: Option<nat>)
      modifies this`codes
      ensures if |old(codes)| < |debts| then codes == old(codes) + [code] else codes == old(codes)
      ensures |old(codes)| < |debts| ==>
                var next := debts[|old(codes)|];
                Selected(debts, codes) == if next.Reply? && next.command.Group? && code == Some(211) then Some(next.command.group)
                                          else if next == Reply(StartTls) && code == Some(382) then None
                                          else Selected(debts, old(codes))
    {
      if |codes| < |debts| {
        SelectedStep(debts, codes, code);
        codes := codes + [code];
      }
    }

    method Fail(error: ProtoError)
      modifies this`outputs, this`state
      ensures outputs == old(outputs) + [Emit(Failed(error))] && state == Done
    {
      EmitError(error);
      state := Done;
    }

    method HandleGreeting(code: Option<nat>)
      requires state == AwaitGreeting || state == AwaitStartTlsGreeting
      modifies this`outputs, this`state, this`codes
      ensures Reacted(old(state), code, old(outputs), old(pendingPassword), old(pendingGroup), old(pendingMessage),
                      old(currentGroup))
      ensures old(Synced()) ==> Synced()
    {
      hide Selected;
      Book(code);
      if code.None? {
        Fail(Protocol);
      } else if code.value == 200 || code.value == 201 {
        Push(Emit(GreetingOk(code.value)));
        state := Idle;
      } else {
        Fail(UnexpectedResponse(code.value));
      }
    }

    method HandleAuthUser(code: Option<nat>)
      requires state == AwaitAuthUser
      modifies this`outputs, this`state, this`authenticated, this`pendingPassword, this`debts, this`asked, this`codes
      ensures Reacted(old(state), code, old(outputs), old(pendingPassword), old(pendingGroup), old(pendingMessage),
                      old(currentGroup))
      ensures old(Synced()) ==> Synced()
      ensures authenticated == (old(authenticated) || code == Some(281))
    {
      hide Selected;
      Book(code);
      if code.None? {
        pendingPassword := None;
        Fail(Protocol);
      } else if code.value == 281 {
        authenticated := true;
        pendingPassword := None;
        Push(Emit(Authenticated));
        state := Idle;
      } else if code.value == 381 {
        var pass := pendingPassword;
        pendingPassword := None;
        if pass.Some? {
          Send(AuthPass(pass.value));
          NeedLine();
          state := AwaitAuthPass;
        } else {
          Fail(AuthFailed);
        }
      } else {
        pendingPassword := None;
        Fail(AuthFailed);
      }
    }

    method HandleAuthPass(code: Option<nat>)
      requires state == AwaitAuthPass
      modifies this`outputs, this`state, this`authenticated, this`codes
      ensures Reacted(old(state), code, old(outputs), old(pendingPassword), old(pendingGroup), old(pendingMessage),
                      old(currentGroup))
      ensures old(Synced()) ==> Synced()
      ensures authenticated == (old(authenticated) || code == Some(281))
    {
      hide Selected;
      Book(code);
      if code.None? {
        Fail(Protocol);
      } else if code.value == 281 {
        authenticated := true;
        Push(Emit(Authenticated));
        state := Idle;
      } else {
        Fail(AuthFailed);
      }
    }

    method HandleGroup(code: Option<nat>)
      requires state == AwaitGroup
      modifies this`outputs, this`state, this`currentGroup, this`pendingGroup, this`codes
      ensures Reacted(old(state), code, old(outputs), old(pendingPassword), old(pendingGroup), old(pendingMessage),
                      old(currentGroup))
      ensures old(Synced()) ==> Synced()
    {
      hide Selected;
      Book(code);
      var group := OrEmpty(pendingGroup);
      pendingGroup := None;
      if code.None? {
        Fail(Protocol);
      } else if code.value == 211 {
        currentGroup := Some(group);
        Push(Emit(GroupJoined(group)));
        state := Idle;
      } else {
        EmitError(UnexpectedResponse(code.value));
        state := Idle;
      }
    }

    method HandlePipelinedGroup(code: Option<nat>)
      requires state == AwaitPipelinedGroupResponse
      modifies this`outputs, this`state, this`currentGroup, this`pendingGroup, this`pendingMessage, this`asked, this`codes
      ensures Reacted(old(state), code, old(outputs), old(pendingPassword), old(pendingGroup), old(pendingMessage),
                      old(currentGroup))
      ensures old(Synced()) ==> Synced()
      ensures |codes| == if |old(codes)| < |debts| then |old(codes)| + 1 else |old(codes)|
    {
      hide Selected;
      Book(code);
      var group := OrEmpty(pendingGroup);
      pendingGroup := None;
      if code == Some(211) {
        currentGroup := Some(group);
        Push(Emit(GroupJoined(group)));
        NeedLine();
        assert outputs == old(outputs) + [Emit(GroupJoined(group)), NeedResponseLine];
        state := AwaitPipelinedBodyResponse;
      } else {
        pendingMessage := None;
        Fail(if code.None? then Protocol else UnexpectedResponse(code.value));
      }
    }

    /** An article that is not there is reported by its id, a missing login as such, and the session goes on. */
    method HandleBodyResponse(code: Option<nat>)
      requires state == AwaitBodyResponse || state == AwaitPipelinedBodyResponse
      modifies this`outputs, this`state, this`pendingMessage, this`codes
      ensures code == Some(222) ==> state == ReadingBody && outputs == old(outputs) + [NeedBodyLine]
      ensures code.Some? && code != Some(222) ==>
                && state == Idle && pendingMessage == None
                && outputs == old(outputs)
                     + [Emit(Failed(if code == Some(430) then ArticleNotFound(old(if pendingMessage.Some? then pendingMessage.value else "unknown"))
                                    else if code == Some(480) then AuthRequired
                                    else UnexpectedResponse(code.value)))]
      ensures Reacted(old(state), code, old(outputs), old(pendingPassword), old(pendingGroup), old(pendingMessage),
                      old(currentGroup))
      ensures old(Synced()) ==> Synced()
      ensures |codes| == if |old(codes)| < |debts| then |old(codes)| + 1 else |old(codes)|
    {
      hide Selected;
      Book(code);
      if code.None? {
        pendingMessage := None;
        Fail(Protocol);
      } else if code.value == 222 {
        Push(NeedBodyLine);
        state := ReadingBody;
      } else {
        var message := pendingMessage;
        pendingMessage := None;
        EmitError(BodyRefused(code.value, message));
        state := Idle;
      }
    }

    method HandleStat(code: Option<nat>)
      requires state == AwaitStat
      modifies this`outputs, this`state, this`codes
      ensures Reacted(old(state), code, old(outputs), old(pendingPassword), old(pendingGroup), old(pendingMessage),
                      old(currentGroup))
      ensures old(Synced()) ==> Synced()
    {
      hide Selected;
      Book(code);
      if code.None? {
        Fail(Protocol);
      } else {
        if code.value == 223 {
          Push(Emit(StatResult(true)));
        } else if code.value == 430 {
          Push(Emit(StatResult(false)));
        } else {
          EmitError(UnexpectedResponse(code.value));
        }
        state := Idle;
      }
    }

    /** The server forgets its group when TLS starts; the machine does not, and is out of step if it had one. */
    method HandleStartTls(code: Option<nat>)
      requires state == AwaitStartTlsResponse
      modifies this`outputs, this`state, this`debts, this`asked, this`codes
      ensures Reacted(old(state), code, old(outputs), old(pendingPassword), old(pendingGroup), old(pendingMessage),
                      old(currentGroup))
      ensures old(Synced()) ==> (Synced() <==> code != Some(382) || currentGroup.None?)
    {
      hide Selected;
      Book(code);
      if code == Some(382) {
        Upgrade();
        NeedLine();
        state := AwaitStartTlsGreeting;
      } else {
        Fail(if code.None? then Protocol else UnexpectedResponse(code.value));
      }
    }

    /** A garbled reply to COMPRESS leaves the machine idle, unlike every other garbled reply. */
    method HandleCompress(code: Option<nat>)
      requires state == AwaitCompressResponse
      modifies this`outputs, this`state, this`codes
      ensures Reacted(old(state), code, old(outputs), old(pendingPassword), old(pendingGroup), old(pendingMessage),
                      old(currentGroup))
      ensures old(Synced()) ==> Synced()
    {
      hide Selected;
      Book(code);
      if code == Some(206) {
        Push(UpgradeToDeflate);
        Push(Emit(CompressActive));
      } else {
        EmitError(if code.None? then Protocol else UnexpectedResponse(code.value));
      }
      state := Idle;
    }

    /** Whatever the server says to QUIT, the session is over. */
    method HandleQuit(code: Option<nat>)
      requires state == AwaitQuit
      modifies this`outputs, this`state, this`codes
      ensures Reacted(old(state), code, old(outputs), old(pendingPassword), old(pendingGroup), old(pendingMessage),
                      old(currentGroup))
      ensures old(Synced()) ==> Synced()
    {
      hide Selected;
      Book(code);
      Push(Emit(QuitAck));
      state := Done;
    }

    /** TLS starts while a group is cached. */
    ghost predicate GroupLost(line: string)
      reads this
    {
      state == AwaitStartTlsResponse && ResponseCode(line) == Some(382) && currentGroup.Some?
    }

    /** A status line in a state that waits for one. */
    method HandleResponse(line: string)
      requires Expected(state) > 0
      modifies this
      ensures Reacted(old(state), ResponseCode(line), old(outputs), old(pendingPassword),
                      old(pendingGroup), old(pendingMessage), old(currentGroup))
      ensures old(Synced()) ==> (Synced() <==> !old(GroupLost(line)))
      ensures authenticated == (old(authenticated)
                || ((old(state) == AwaitAuthUser || old(state) == AwaitAuthPass) && ResponseCode(line) == Some(281)))
      ensures FetchingBody(old(state)) ==> debts == old(debts)
      ensures FetchingBody(old(state)) ==> |codes| == if |old(codes)| < |debts| then |old(codes)| + 1 else |old(codes)|
    {
      hide Synced, Reacted, ResponseCode;
      var code := ResponseCode(line);
      match state
      case AwaitGreeting => HandleGreeting(code);
      case AwaitStartTlsGreeting => HandleGreeting(code);
      case AwaitAuthUser => HandleAuthUser(code);
      case AwaitAuthPass => HandleAuthPass(code);
      case AwaitGroup => HandleGroup(code);
      case AwaitStat => HandleStat(code);
      case AwaitPipelinedGroupResponse => HandlePipelinedGroup(code);
      case AwaitPipelinedBodyResponse => HandleBodyResponse(code);
      case AwaitBodyResponse => HandleBodyResponse(code);
      case AwaitStartTlsResponse => HandleStartTls(code);
      case AwaitCompressResponse => HandleCompress(code);
      case AwaitQuit => HandleQuit(code);
    }

    method HandleInput(input: Input)
      modifies this
      ensures old(state) == Done ==> state == Done && outputs == old(outputs)
      ensures old(state) != Done && input.ResponseLine? && Expected(old(state)) > 0 ==>
                Reacted(old(state), ResponseCode(input.line), old(outputs), old(pendingPassword),
                        old(pendingGroup), old(pendingMessage), old(currentGroup))
      ensures old(state) == ReadingBody && input.BodyLine? ==>
                state == ReadingBody && outputs == old(outputs) + [Emit(BodyChunk(Unstuff(input.data))), NeedBodyLine]
      ensures old(state) == ReadingBody && input.BodyEnd? ==> state == Idle && outputs == old(outputs) + [Emit(BodyEnded)]
      ensures old(state) == Idle && input.ResponseLine? ==> state == Idle && outputs == old(outputs) + [Emit(Failed(Protocol))]
      ensures old(state) != Done && (input.Eof? || !Suits(old(state), input)) ==>
                state == Done && outputs == old(outputs) + [Emit(Failed(Protocol))]
      ensures !input.ResponseLine? ==> debts == old(debts) && codes == old(codes) && currentGroup == old(currentGroup)
      ensures old(Synced()) && (input.ResponseLine? ==> old(asked > |codes|)) ==>
                (Synced() <==> !(input.ResponseLine? && old(GroupLost(input.line))))
      ensures FetchingBody(old(state)) ==> debts == old(debts)
      ensures FetchingBody(old(state)) && input.ResponseLine? && |old(codes)| < |old(debts)| ==> |codes| == |old(codes)| + 1
    {
      hide Selected, ResponseCode, AfterCode, Reaction;
      if state == Done {
        return;
      }
      match input
      case Eof =>
        Fail(Protocol);
      case ResponseLine(line) =>
        if Expected(state) > 0 {
          HandleResponse(line);
        } else if state == Idle {
          EmitError(Protocol);
        } else {
          Fail(Protocol);
        }
      case BodyLine(data) =>
        if state == ReadingBody {
          Push(Emit(BodyChunk(Unstuff(data))));
          Push(NeedBodyLine);
        } else {
          Fail(Protocol);
        }
      case BodyEnd =>
        if state == ReadingBody {
          pendingMessage := None;
          Push(Emit(BodyEnded));
          state := Idle;
        } else {
          Fail(Protocol);
        }
    }
  }

  predicate FetchingBody(s: State) {
    s == AwaitBodyResponse || s == AwaitPipelinedGroupResponse || s == AwaitPipelinedBodyResponse
  }

  predicate Suits(s: State, input: Input) {
    || (input.ResponseLine? && (Expected(s) > 0 || s == Idle))
    || (s == ReadingBody && (input.BodyLine? || input.BodyEnd?))
  }
}
