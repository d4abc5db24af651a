/** Article bodies on the wire: lines, dot-stuffing, and the terminator. */
module BodyText {
  import opened Common

  const LF: Byte := 10
  const CR: Byte := 13
  const DOT: Byte := 46

  // ---- Lines ----

  /** Where the first line feed is, or the length. */
  function LineEnd(s: Bytes): (k: nat)
    ensures k <= |s|
    ensures k < |s| ==> s[k] == LF
    ensures forall j :: 0 <= j < k ==> s[j] != LF
  {
    if s == [] then 0
    else if s[0] == LF then 0
    else 1 + LineEnd(s[1..])
  }

  /** The pieces between line feeds; one more than there are line feeds. */
  function Lines(s: Bytes): (r: seq<Bytes>)
    ensures r != []
    ensures forall i :: 0 <= i < |r| ==> LF !in r[i]
    decreases |s|
  {
    var k := LineEnd(s);
    if k == |s| then [s] else [s[..k]] + Lines(s[k + 1..])
  }

  /** The lines put back together. */
  function Join(lines: seq<Bytes>): Bytes {
    if lines == [] then []
    else if |lines| == 1 then lines[0]
    else lines[0] + [LF] + Join(lines[1..])
  }

  lemma JoinOne(line: Bytes)
    ensures Join([line]) == line
  {
  }

  lemma JoinMore(line: Bytes, rest: seq<Bytes>)
    requires rest != []
    ensures Join([line] + rest) == line + [LF] + Join(rest)
  {
    assert ([line] + rest)[1..] == rest;
  }

  lemma SplitAtLineFeed(s: Bytes, k: nat)
    requires k < |s| && s[k] == LF
    ensures s == s[..k] + [LF] + s[k + 1..]
  {
  }

  lemma {:induction false} JoinLines(s: Bytes)
    ensures Join(Lines(s)) == s
    decreases |s|
  {
    hide LineEnd, Join;
    var k := LineEnd(s);
    if k == |s| {
      JoinOne(s);
    } else {
      JoinLines(s[k + 1..]);
      JoinMore(s[..k], Lines(s[k + 1..]));
      SplitAtLineFeed(s, k);
    }
  }

  /** The bytes without carriage returns. */
  function Strip(s: Bytes): (r: Bytes)
    ensures CR !in r
    ensures LF !in s ==> LF !in r
  {
    if s == [] then []
    else if s[0] == CR then Strip(s[1..])
    else [s[0]] + Strip(s[1..])
  }

  lemma {:induction false} StripPlus(s: Bytes, t: Bytes)
    ensures Strip(s + t) == Strip(s) + Strip(t)
  {
    if s == [] {
      assert s + t == t;
    } else {
      assert (s + t)[0] == s[0] && (s + t)[1..] == s[1..] + t;
      StripPlus(s[1..], t);
    }
  }

  lemma {:induction false} StripWithoutCr(s: Bytes)
    requires CR !in s
    ensures Strip(s) == s
  {
    if s != [] {
      StripWithoutCr(s[1..]);
    }
  }

  function StripAll(lines: seq<Bytes>): (r: seq<Bytes>)
    ensures |r| == |lines| && forall i :: 0 <= i < |lines| ==> r[i] == Strip(lines[i])
  {
    seq(|lines|, i requires 0 <= i < |lines| => Strip(lines[i]))
  }

  lemma {:induction false} StripJoin(lines: seq<Bytes>)
    ensures Join(StripAll(lines)) == Strip(Join(lines))
  {
    if |lines| > 1 {
      StripJoin(lines[1..]);
      assert StripAll(lines)[1..] == StripAll(lines[1..]);
      StripPlus(lines[0] + [LF], Join(lines[1..]));
      StripPlus(lines[0], [LF]);
      assert Strip([LF]) == [LF];
    }
  }

  // ---- Stuffing ----

  function Stuff(line: Bytes): Bytes {
    if line != [] && line[0] == DOT then [DOT] + line else line
  }

  function Unstuff(line: Bytes): Bytes {
    if |line| >= 2 && line[0] == DOT && line[1] == DOT then line[1..] else line
  }

  predicate IsTerminator(line: Bytes) {
    line == [DOT]
  }

  /** Stuffing is undone, and a stuffed line is never taken for the terminator. */
  lemma StuffedLine(line: Bytes)
    ensures Unstuff(Stuff(line)) == line && !IsTerminator(Stuff(line))
  {
  }

  /** Only a second dot at the start makes the first one go. */
  lemma UnstuffedLine(line: Bytes)
    ensures if |line| >= 2 && line[0] == line[1] == DOT then [DOT] + Unstuff(line) == line else Unstuff(line) == line
  {
  }

  /** Removes a line feed and then a carriage return from the end. */
  method TrimCrlf(s: Bytes) returns (r: Bytes)
    ensures r == Trim(s)
  {
    var end := |s|;
    if end > 0 && s[end - 1] == LF {
      end := end - 1;
    }
    if end > 0 && s[end - 1] == CR {
      end := end - 1;
    }
    r := s[..end];
  }

  function Trim(s: Bytes): Bytes {
    var t := if s != [] && s[|s| - 1] == LF then s[..|s| - 1] else s;
    if t != [] && t[|t| - 1] == CR then t[..|t| - 1] else t
  }

  lemma TrimFramed(line: Bytes)
    ensures Trim(line + [CR, LF]) == line
  {
    assert (line + [CR, LF])[..|line| + 1] == line + [CR];
  }

  // ---- The sender ----

  function Frame(line: Bytes): Bytes {
    Stuff(line) + [CR, LF]
  }

  function Frames(lines: seq<Bytes>): Bytes {
    if lines == [] then [] else Frames(lines[..|lines| - 1]) + Frame(lines[|lines| - 1])
  }

  /** What send_body writes for a body. */
  function Wire(raw: Bytes): Bytes {
    Frames(StripAll(Lines(raw))) + [DOT, CR, LF]
  }

  lemma NoFrames(lines: seq<Bytes>)
    ensures Frames(lines[..0]) == []
  {
  }

  lemma FramesStep(lines: seq<Bytes>, i: nat)
    requires i < |lines|
    ensures Frames(lines[..i + 1]) == Frames(lines[..i]) + Frame(lines[i])
  {
    assert lines[..i + 1][..i] == lines[..i];
    hide Frame;
  }

  lemma NextFrame(lines: seq<Bytes>, i: nat, wire: Bytes, line: Bytes)
    requires i < |lines| && wire == Frames(lines[..i]) && lines[i] == line
    ensures Frames(lines[..i + 1])
         == (if line != [] && line[0] == DOT then wire + [DOT] else wire) + line + [CR, LF]
  {
    hide Frames;
    FramesStep(lines, i);
    if line != [] && line[0] == DOT {
      assert wire + [DOT] + line + [CR, LF] == wire + ([DOT] + line + [CR, LF]);
    } else {
      assert wire + line + [CR, LF] == wire + (line + [CR, LF]);
    }
  }

  /** Carriage return and line feed only occur together, and the line feed is last. */
  ghost predicate WellFramed(s: Bytes) {
    && (forall k :: 0 <= k < |s| && s[k] == LF ==> k > 0 && s[k - 1] == CR)
    && (forall k :: 0 <= k < |s| && s[k] == CR ==> k + 1 < |s| && s[k + 1] == LF)
    && (s != [] ==> s[|s| - 1] == LF)
  }

  lemma FrameFramed(wire: Bytes, line: Bytes)
    requires WellFramed(wire) && LF !in line && CR !in line
    ensures WellFramed(wire + (line + [CR, LF]))
  {
    var after := wire + (line + [CR, LF]);
    forall k | |wire| <= k < |wire| + |line|
      ensures after[k] != LF && after[k] != CR
    {
      assert after[k] == line[k - |wire|];
    }
  }

  lemma {:induction false} FramesFramed(lines: seq<Bytes>)
    requires forall i :: 0 <= i < |lines| ==> LF !in lines[i] && CR !in lines[i]
    ensures WellFramed(Frames(lines))
  {
    hide WellFramed;
    if lines == [] {
      NothingFramed();
    } else {
      var n := |lines| - 1;
      FramesFramed(lines[..n]);
      FrameFramed(Frames(lines[..n]), Stuff(lines[n]));
    }
  }

  lemma NothingFramed()
    ensures WellFramed([])
  {
  }

  /** What is sent is a sequence of lines ended by carriage return and line feed, the last one a single dot. */
  lemma WireFramed(raw: Bytes)
    ensures WellFramed(Wire(raw))
    ensures exists body :: WellFramed(body) && Wire(raw) == body + [46, 13, 10]
  {
    hide Strip, Lines, Frames, WellFramed;
    var lines := StripAll(Lines(raw));
    FramesFramed(lines);
    FrameFramed(Frames(lines), [DOT]);
    assert [DOT] + [CR, LF] == [DOT, CR, LF];
  }

  method SendBody(raw: Bytes) returns (wire: Bytes)
    ensures wire == Wire(raw)
  {
    hide Lines, Strip, StripAll, Frames, Frame;
    wire := [];
    var lines := Lines(raw);
    ghost var stripped := StripAll(lines);
    NoFrames(stripped);
    for i := 0 to |lines|
      invariant wire == Frames(stripped[..i])
    {
      var line := Strip(lines[i]);
      NextFrame(stripped, i, wire, line);
      if line != [] && line[0] == DOT {
        wire := wire + [DOT];
      }
      wire := wire + line;
      wire := wire + [CR, LF];
    }
    assert stripped[..|lines|] == stripped;
    wire := wire + [DOT, CR, LF];
  }

  // ---- The receiver ----

  /** read_until: up to and including the next line feed, or everything. */
  function ReadUntil(s: Bytes): (Bytes, Bytes) {
    var k := LineEnd(s);
    if k == |s| then (s, []) else (s[..k + 1], s[k + 1..])
  }

  datatype Received = Body(data: Bytes, rest: Bytes) | Truncated

  /** Reads lines to the terminator, unstuffs them and joins them; `sofar` holds the lines read. */
  function Receive(stream: Bytes, sofar: seq<Bytes>): Received
    decreases |stream|
  {
    if stream == [] then Truncated
    else
      var (line, rest) := ReadUntil(stream);
      var trimmed := Trim(line);
      if IsTerminator(trimmed) then Body(Join(sofar), rest)
      else Receive(rest, sofar + [Unstuff(trimmed)])
  }

  lemma ReadFrame(line: Bytes, more: Bytes)
    requires LF !in line
    ensures ReadUntil(line + [CR, LF] + more) == (line + [CR, LF], more)
  {
    var s := line + [CR, LF] + more;
    var k := LineEnd(s);
    assert s[|line| + 1] == LF;
    assert forall j :: 0 <= j < |line| ==> s[j] == line[j];
    assert k == |line| + 1;
    assert s[..k + 1] == line + [CR, LF] && s[k + 1..] == more;
  }

  lemma ReceiveFrame(line: Bytes, more: Bytes, sofar: seq<Bytes>)
    requires LF !in line
    ensures Receive(Frame(line) + more, sofar) == Receive(more, sofar + [line])
  {
    StuffedLine(line);
    var stuffed := Stuff(line);
    assert LF !in stuffed;
    ReadFrame(stuffed, more);
    TrimFramed(stuffed);
    hide ReadUntil, Trim, Unstuff, Stuff;
    assert Frame(line) + more == stuffed + [CR, LF] + more;
    assert Frame(line) + more != [] by {
      assert |Frame(line)| >= 2;
    }
  }

  lemma {:induction false} ReceiveFrames(lines: seq<Bytes>, more: Bytes, sofar: seq<Bytes>)
    requires forall i :: 0 <= i < |lines| ==> LF !in lines[i]
    ensures Receive(Frames(lines) + more, sofar) == Receive(more, sofar + lines)
  {
    hide Receive, Frame;
    if lines == [] {
      assert Frames(lines) + more == more;
      assert sofar + lines == sofar;
    } else {
      var n := |lines| - 1;
      ReceiveFrames(lines[..n], Frame(lines[n]) + more, sofar);
      assert Frames(lines) + more == Frames(lines[..n]) + (Frame(lines[n]) + more);
      ReceiveFrame(lines[n], more, sofar + lines[..n]);
      assert sofar + lines[..n] + [lines[n]] == sofar + lines;
    }
  }

  lemma ReceiveEnd(more: Bytes, sofar: seq<Bytes>)
    ensures Receive([DOT, CR, LF] + more, sofar) == Body(Join(sofar), more)
  {
    ReadFrame([DOT], more);
    assert [DOT] + [CR, LF] + more == [DOT, CR, LF] + more;
    TrimFramed([DOT]);
  }

  /** Every body arrives without its carriage returns, and reading stops right behind it. */
  lemma RoundTrip(raw: Bytes, more: Bytes)
    ensures Receive(Wire(raw) + more, []) == Body(Strip(raw), more)
    ensures CR !in raw ==> Receive(Wire(raw) + more, []) == Body(raw, more)
  {
    var lines := StripAll(Lines(raw));
    ReceiveFrames(lines, [DOT, CR, LF] + more, []);
    assert Wire(raw) + more == Frames(lines) + ([DOT, CR, LF] + more);
    assert [] + lines == lines;
    ReceiveEnd(more, lines);
    StripJoin(Lines(raw));
    JoinLines(raw);
    if CR !in raw {
      StripWithoutCr(raw);
    }
  }
}
