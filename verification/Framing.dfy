/** Cutting a connection's byte stream into commands. However the bytes are spread
    over reads, the commands are those of the whole stream. */
module Framing {
  import opened Basics
  import opened Lines

  /** The newline-terminated lines of a stream. */
  function CompleteLines(s: string): seq<string>
    decreases |s|
  {
    var i := FindNewline(s);
    if i == |s| then [] else [s[..i]] + CompleteLines(s[i + 1..])
  }

  /** What follows the last newline. */
  function Leftover(s: string): string
    decreases |s|
  {
    var i := FindNewline(s);
    if i == |s| then s else Leftover(s[i + 1..])
  }

  function StripReturn(l: string): string {
    if l != "" && l[|l| - 1] == '\r' then l[..|l| - 1] else l
  }

  function ToCommand(l: string): seq<string> {
    if StripReturn(l) == "" then [] else [StripReturn(l)]
  }

  /** Lines become commands: one trailing carriage return goes, empty ones are dropped. */
  function ToCommands(ls: seq<string>): seq<string> {
    if ls == [] then [] else ToCommand(ls[0]) + ToCommands(ls[1..])
  }

  lemma {:induction false} ToCommandsAppend(a: seq<string>, b: seq<string>)
    ensures ToCommands(a + b) == ToCommands(a) + ToCommands(b)
  {
    if a == [] {
      assert a + b == b;
    } else {
      assert (a + b)[1..] == a[1..] + b;
      ToCommandsAppend(a[1..], b);
    }
  }

  lemma {:induction false} UnlinesAppend(a: seq<string>, b: seq<string>)
    ensures Unlines(a + b) == Unlines(a) + Unlines(b)
  {
    if a == [] {
      assert a + b == b;
    } else {
      assert (a + b)[1..] == a[1..] + b;
      UnlinesAppend(a[1..], b);
    }
  }

  predicate Plain(ls: seq<string>) { forall l :: l in ls ==> '\n' !in l }

  lemma CutAt(s: string, i: nat)
    requires i < |s| && s[i] == '\n'
    ensures s == s[..i] + "\n" + s[i + 1..]
  {
  }

  lemma {:induction false} LinesMakeStream(s: string)
    ensures s == Unlines(CompleteLines(s)) + Leftover(s)
    decreases |s|
  {
    var i := FindNewline(s);
    if i < |s| {
      var rest := s[i + 1..];
      LinesMakeStream(rest);
      CutAt(s, i);
      UnlinesAppend([s[..i]], CompleteLines(rest));
      assert Unlines([s[..i]]) == s[..i] + "\n";
      Regroup(s[..i] + "\n", Unlines(CompleteLines(rest)), Leftover(rest));
    }
  }

  /** Neither the lines nor the leftover hold a newline. */
  lemma {:induction false} LinesPlain(s: string, l: string)
    requires l in CompleteLines(s)
    ensures '\n' !in l
    decreases |s|
  {
    var i := FindNewline(s);
    if l != s[..i] {
      LinesPlain(s[i + 1..], l);
    }
  }

  lemma {:induction false} LeftoverPlain(s: string)
    ensures '\n' !in Leftover(s)
    decreases |s|
  {
    hide FindNewline;
    var i := FindNewline(s);
    if i == |s| {
      assert s[..i] == s;
    } else {
      LeftoverPlain(s[i + 1..]);
    }
  }

  /** There is only one way to cut a stream into plain lines and a plain leftover. */
  lemma {:induction false} LinesUnique(ls: seq<string>, rest: string)
    requires Plain(ls) && '\n' !in rest
    ensures CompleteLines(Unlines(ls) + rest) == ls && Leftover(Unlines(ls) + rest) == rest
  {
    var s := Unlines(ls) + rest;
    if ls == [] {
      assert s == rest && s[..|s|] == s;
      FindUnique(s, |s|);
    } else {
      var i := |ls[0]|;
      assert ls[0] in ls;
      assert s[..i] == ls[0] && s[i] == '\n' && s[i + 1..] == Unlines(ls[1..]) + rest;
      FindUnique(s, i);
      LinesUnique(ls[1..], rest);
    }
  }

  /** Reading `b` after `a`: the lines of `a`, then those of what `a` left over and `b`. */
  lemma LinesAppend(a: string, b: string)
    ensures CompleteLines(a + b) == CompleteLines(a) + CompleteLines(Leftover(a) + b)
    ensures Leftover(a + b) == Leftover(Leftover(a) + b)
  {
    var rest := Leftover(a) + b;
    var ls := CompleteLines(a) + CompleteLines(rest);
    LinesMakeStream(a);
    LinesMakeStream(rest);
    forall l | l in ls
      ensures '\n' !in l
    {
      LinesPlain(if l in CompleteLines(a) then a else rest, l);
    }
    LeftoverPlain(rest);
    UnlinesAppend(CompleteLines(a), CompleteLines(rest));
    Regroup(Unlines(CompleteLines(a)), Leftover(a), b);
    Regroup(Unlines(CompleteLines(a)), Unlines(CompleteLines(rest)), Leftover(rest));
    LinesUnique(ls, Leftover(rest));
  }

  datatype Frame = Frame(commands: seq<string>, buffer: string)

  /** One read: what it yields and what it leaves in the buffer. */
  function Feed(buffer: string, chunk: string): Frame {
    Frame(ToCommands(CompleteLines(buffer + chunk)), Leftover(buffer + chunk))
  }

  function FeedAll(chunks: seq<string>): Frame {
    if chunks == [] then Frame([], "")
    else
      var before := FeedAll(chunks[..|chunks| - 1]);
      var f := Feed(before.buffer, chunks[|chunks| - 1]);
      Frame(before.commands + f.commands, f.buffer)
  }

  function Concat(chunks: seq<string>): string {
    if chunks == [] then "" else Concat(chunks[..|chunks| - 1]) + chunks[|chunks| - 1]
  }

  /** One more read keeps the commands and the buffer those of the stream so far. */
  lemma {:induction false} FeedExtends(stream: string, chunk: string)
    ensures var f := Feed(Leftover(stream), chunk);
      && ToCommands(CompleteLines(stream + chunk)) == ToCommands(CompleteLines(stream)) + f.commands
      && Leftover(stream + chunk) == f.buffer
  {
    LinesAppend(stream, chunk);
    ToCommandsAppend(CompleteLines(stream), CompleteLines(Leftover(stream) + chunk));
  }

  /** The commands do not depend on how the stream was cut into reads. */
  lemma {:induction false} ChunkingIrrelevant(chunks: seq<string>)
    ensures FeedAll(chunks) == Frame(ToCommands(CompleteLines(Concat(chunks))), Leftover(Concat(chunks)))
  {
    if chunks != [] {
      var before := chunks[..|chunks| - 1];
      ChunkingIrrelevant(before);
      FeedExtends(Concat(before), chunks[|chunks| - 1]);
    }
  }

  // ----- What a client sends -----

  /** A request line: not empty, no newline in it and no carriage return at its end. */
  predicate Request(x: string) { x != "" && '\n' !in x && x[|x| - 1] != '\r' }

  /** A request becomes a command as it is, with or without a carriage return; an empty line none. */
  lemma {:induction false} CommandOfLine(x: string)
    requires Request(x)
    ensures ToCommand(x) == [x] && ToCommand(x + "\r") == [x]
    ensures ToCommand("") == [] && ToCommand("\r") == []
  {
    assert (x + "\r")[..|x|] == x && "\r"[..0] == "";
  }

  predicate LineEnd(e: string) { e == "\n" || e == "\r\n" }

  ghost predicate Sendable(xs: seq<string>, ends: seq<string>) {
    |ends| == |xs| && (forall x :: x in xs ==> Request(x)) && (forall e :: e in ends ==> LineEnd(e))
  }

  /** The requests one after the other, each with its line end. */
  function Stream(xs: seq<string>, ends: seq<string>): string
    requires |ends| == |xs|
  {
    if xs == [] then "" else xs[0] + ends[0] + Stream(xs[1..], ends[1..])
  }

  /** The same as newline-terminated lines. */
  function Raw(xs: seq<string>, ends: seq<string>): seq<string>
    requires |ends| == |xs|
  {
    if xs == [] then [] else [if ends[0] == "\r\n" then xs[0] + "\r" else xs[0]] + Raw(xs[1..], ends[1..])
  }

  lemma SendableTail(xs: seq<string>, ends: seq<string>)
    requires Sendable(xs, ends) && xs != []
    ensures Sendable(xs[1..], ends[1..]) && Request(xs[0]) && LineEnd(ends[0])
  {
    assert xs[0] in xs && ends[0] in ends;
    assert forall x :: x in xs[1..] ==> x in xs;
    assert forall e :: e in ends[1..] ==> e in ends;
  }

  lemma {:induction false} RawSent(xs: seq<string>, ends: seq<string>)
    requires Sendable(xs, ends)
    ensures Unlines(Raw(xs, ends)) == Stream(xs, ends) && Plain(Raw(xs, ends)) && ToCommands(Raw(xs, ends)) == xs
  {
    if xs != [] {
      SendableTail(xs, ends);
      var rest := Raw(xs[1..], ends[1..]);
      RawSent(xs[1..], ends[1..]);
      var l := if ends[0] == "\r\n" then xs[0] + "\r" else xs[0];
      assert Raw(xs, ends) == [l] + rest;
      assert Unlines(Raw(xs, ends)) == l + "\n" + Unlines(rest);
      assert l + "\n" == xs[0] + ends[0];
      CommandOfLine(xs[0]);
      assert ([l] + rest)[1..] == rest;
      assert [xs[0]] + xs[1..] == xs;
    }
  }

  /** However the bytes are cut into reads, requests sent with either line end come out as they are, and a
      beginning of the next stays in the buffer. */
  lemma {:induction false} RequestsArrive(xs: seq<string>, ends: seq<string>, rest: string, chunks: seq<string>)
    requires Sendable(xs, ends) && '\n' !in rest && Concat(chunks) == Stream(xs, ends) + rest
    ensures FeedAll(chunks) == Frame(xs, rest)
  {
    RawSent(xs, ends);
    LinesUnique(Raw(xs, ends), rest);
    ChunkingIrrelevant(chunks);
  }

  /** The same for one read into an empty buffer. */
  lemma FeedSent(xs: seq<string>, ends: seq<string>)
    requires Sendable(xs, ends)
    ensures Feed("", Stream(xs, ends)) == Frame(xs, "")
  {
    var s := Stream(xs, ends);
    RawSent(xs, ends);
    assert s + "" == s && "" + s == s;
    LinesUnique(Raw(xs, ends), "");
  }

  // ----- The program -----

  /** What `recv` reports. */
  datatype Received = Data(bytes: string) | WouldBlock | Failed | Closed

  /** What a read yields and leaves in the buffer. */
  function Intake(buffer: string, r: Received): Frame {
    if r.Data? then Feed(buffer, r.bytes) else Frame([], buffer)
  }

  class Connection {
    var readBuffer: string
    var hasError: bool
    var inFlight: bool

    constructor ()
      ensures readBuffer == "" && !hasError && !inFlight
    {
      readBuffer, hasError, inFlight := "", false, false;
    }

    method ReadAndParse(received: Received) returns (commands: seq<string>)
      modifies `readBuffer, `hasError
      ensures hasError == (old(hasError) || received.Failed? || received.Closed?)
      ensures Frame(commands, readBuffer) == Intake(old(readBuffer), received)
    {
      commands := [];
      if received.WouldBlock? {
        return;
      }
      if !received.Data? {
        hasError := true;
        return;
      }
      readBuffer := readBuffer + received.bytes;
      commands := ExtractCommands();
    }

    /** Take every complete command out of the buffer. */
    method ExtractCommands() returns (commands: seq<string>)
      modifies `readBuffer
      ensures commands == ToCommands(CompleteLines(old(readBuffer))) && readBuffer == Leftover(old(readBuffer))
    {
      hide CompleteLines, ToCommands, FindNewline;
      commands := [];
      var pos := FindNewline(readBuffer);
      while pos < |readBuffer|
        invariant pos == FindNewline(readBuffer)
        invariant commands + ToCommands(CompleteLines(readBuffer)) == ToCommands(CompleteLines(old(readBuffer)))
        invariant Leftover(readBuffer) == Leftover(old(readBuffer))
        decreases |readBuffer|
      {
        TakeLine(readBuffer);
        Regroup(commands, ToCommand(readBuffer[..pos]), ToCommands(CompleteLines(readBuffer[pos + 1..])));
        ghost var extended := commands + ToCommand(readBuffer[..pos]);
        var cmd := readBuffer[..pos];
        readBuffer := readBuffer[pos + 1..];
        if cmd != "" && cmd[|cmd| - 1] == '\r' {
          cmd := cmd[..|cmd| - 1];
        }
        if cmd != "" {
          commands := commands + [cmd];
        }
        assert commands == extended;
        pos := FindNewline(readBuffer);
      }
      NoLine(readBuffer);
    }

    /** Atomic compare-and-set: succeeds exactly when the flag was clear. */
    method TrySetInFlight() returns (ok: bool)
      modifies `inFlight
      ensures ok == !old(inFlight) && inFlight
    {
      ok := !inFlight;
      inFlight := true;
    }

    method ClearInFlight()
      modifies `inFlight
      ensures !inFlight
    {
      inFlight := false;
    }
  }

  lemma NoLine(s: string)
    requires FindNewline(s) == |s|
    ensures ToCommands(CompleteLines(s)) == [] && Leftover(s) == s
  {
  }

  /** The first line of a buffer is its first command, unless it is empty. */
  lemma TakeLine(s: string)
    requires FindNewline(s) < |s|
    ensures var i := FindNewline(s);
      && ToCommands(CompleteLines(s)) == ToCommand(s[..i]) + ToCommands(CompleteLines(s[i + 1..]))
      && Leftover(s) == Leftover(s[i + 1..])
  {
    hide FindNewline, ToCommand;
    var i := FindNewline(s);
    var rest := CompleteLines(s[i + 1..]);
    assert CompleteLines(s) == [s[..i]] + rest;
    ToCommandsAppend([s[..i]], rest);
    OneCommand(s[..i]);
  }

  lemma OneCommand(l: string)
    ensures ToCommands([l]) == ToCommand(l)
  {
    assert ToCommands([l][1..]) == [];
  }
}
