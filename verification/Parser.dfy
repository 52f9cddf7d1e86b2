/** Commands: parsing a line, and the lines the log writer prints. */
module Parser {
  import opened Basics
  import opened Tokens
  import opened Decimal

  datatype Kind = PING | SET | GET | DEL | EXPIRE | TTL | STATS | UNKNOWN

  datatype Command = Command(kind: Kind, args: seq<string>)

  function ToUpper(s: string): string {
    seq(|s|, i requires 0 <= i < |s| =>
      if 'a' <= s[i] <= 'z' then (s[i] as int - 32) as char else s[i])
  }

  function KindOf(name: string): Kind {
    match name
    case "PING" => PING
    case "SET" => SET
    case "GET" => GET
    case "DEL" => DEL
    case "EXPIRE" => EXPIRE
    case "TTL" => TTL
    case "STATS" => STATS
    case _ => UNKNOWN
  }

  /** How many arguments a command keeps; with fewer tokens it keeps none. */
  function Arity(kind: Kind): nat {
    match kind
    case SET => 2
    case EXPIRE => 2
    case GET => 1
    case DEL => 1
    case TTL => 1
    case _ => 0
  }

  function Trim(s: string): string { TrimEnd(TrimFront(s)) }

  function Interpret(tokens: seq<string>): Command {
    if tokens == [] then Command(UNKNOWN, [])
    else
      var kind := KindOf(ToUpper(tokens[0]));
      Command(kind, if |tokens| > Arity(kind) then tokens[1..Arity(kind) + 1] else [])
  }

  function Parse(input: string): Command { Interpret(Split(Trim(input))) }

  // ----- Lines of the log -----

  datatype Record =
    | SetRecord(key: string, value: string)
    | DelRecord(key: string)
    | ExpireRecord(key: string, secs: int)

  function Print(r: Record): string {
    match r
    case SetRecord(k, v) => "SET " + Quote(k) + " " + Quote(v)
    case DelRecord(k) => "DEL " + Quote(k)
    case ExpireRecord(k, secs) => "EXPIRE " + Quote(k) + " " + ToText(secs)
  }

  function Fields(r: Record): seq<string> {
    match r
    case SetRecord(k, v) => ["SET", k, v]
    case DelRecord(k) => ["DEL", k]
    case ExpireRecord(k, secs) => ["EXPIRE", k, ToText(secs)]
  }

  /** The command a printed record stands for. */
  function Meaning(r: Record): Command {
    match r
    case SetRecord(k, v) => Command(SET, [k, v])
    case DelRecord(k) => Command(DEL, [k])
    case ExpireRecord(k, secs) => Command(EXPIRE, [k, ToText(secs)])
  }

  predicate Printable(r: Record) {
    Loggable(r.key) && (r.SetRecord? ==> Loggable(r.value))
  }

  lemma NamePlain(r: Record)
    ensures Quote(Fields(r)[0]) == Fields(r)[0] && Loggable(Fields(r)[0])
  {
    var name := Fields(r)[0];
    assert forall i :: 0 <= i < |name| ==> !IsSpecial(name[i]) && !IsSpace(name[i]);
  }

  lemma LineOfTwo(a: string, b: string)
    ensures Line([a, b]) == Quote(a) + " " + Quote(b)
  {
    assert [a, b][1..] == [b];
  }

  lemma LineOfThree(a: string, b: string, c: string)
    ensures Line([a, b, c]) == Quote(a) + " " + Quote(b) + " " + Quote(c)
  {
    assert [a, b, c][1..] == [b, c];
    LineOfTwo(b, c);
  }

  lemma PrintIsLine(r: Record)
    ensures Print(r) == Line(Fields(r))
  {
    NamePlain(r);
    match r
    case SetRecord(k, v) =>
      LineOfThree("SET", k, v);
      assert "SET" + " " == "SET ";
    case DelRecord(k) =>
      LineOfTwo("DEL", k);
      assert "DEL" + " " == "DEL ";
    case ExpireRecord(k, secs) =>
      LineOfThree("EXPIRE", k, ToText(secs));
      ToTextPlain(secs);
      assert "EXPIRE" + " " == "EXPIRE ";
  }

  /** A line that starts with a loggable token is not trimmed in front. */
  lemma TrimFrontLine(ts: seq<string>)
    requires ts != [] && Loggable(ts[0])
    ensures TrimFront(Line(ts)) == Line(ts)
  {
    var t := ts[0];
    assert !HasSpecial(t) ==> !IsSpace(t[0]);
    assert Line(ts)[0] == Quote(t)[0];
  }

  lemma InterpretFields(r: Record)
    ensures Interpret(Fields(r)) == Meaning(r)
  {
    assert ToUpper("SET") == "SET" && ToUpper("DEL") == "DEL" && ToUpper("EXPIRE") == "EXPIRE";
  }

  lemma PrintedArgsLoggable(r: Record, t: string)
    requires t in Parse(Print(r)).args
    ensures Loggable(t)
  {
    PrintIsLine(r);
    NamePlain(r);
    TrimFrontLine(Fields(r));
    var ts := TrimLine(Fields(r));
    LineTokensLoggable(ts);
  }

  /** Parsing a logged line gives back the logged command exactly when its strings are loggable. */
  lemma {:induction false} ParseUndoesPrint(r: Record)
    ensures Parse(Print(r)) == Meaning(r) <==> Printable(r)
  {
    var ts := Fields(r);
    if Printable(r) {
      PrintIsLine(r);
      NamePlain(r);
      TrimFrontLine(ts);
      if r.ExpireRecord? {
        ToTextPlain(r.secs);
      }
      LineEndsInToken(ts);
      SplitLine(ts);
      InterpretFields(r);
    }
    forall t | t in Parse(Print(r)).args
      ensures Loggable(t)
    {
      PrintedArgsLoggable(r, t);
    }
  }

  /** A line whose only whitespace is spaces and tabs parses into loggable arguments only. */
  lemma PlainArgsLoggable(input: string, t: string)
    requires t in Parse(input).args
    requires forall c :: c in input && IsSpace(c) ==> c == ' ' || c == '\t'
    ensures Loggable(t)
  {
    ArgsFromInput(input, t);
    if !NoSpace(t) {
      var i :| 0 <= i < |t| && IsSpace(t[i]);
      assert t[i] in t;
      assert IsSpecial(t[i]);
    }
  }

  /** Arguments are non-empty and hold only characters of the line. */
  lemma ArgsFromInput(input: string, t: string)
    requires t in Parse(input).args
    ensures t != "" && forall c :: c in t ==> c in input
  {
    var trimmed := Trim(input);
    TrimChars(input);
    TrimChars(TrimFront(input));
    assert t in Split(trimmed);
    TokenNonEmpty(trimmed, t);
    forall c | c in t
      ensures c in input
    {
      SplitChars(trimmed, t, c);
    }
  }

  lemma {:induction false} TokenNonEmpty(s: string, t: string)
    requires t in Split(s)
    ensures t != ""
    decreases |s|
  {
    if IsSpace(s[0]) {
      TokenNonEmpty(s[1..], t);
    } else if s[0] == '"' {
      if t in Split(Quoted(s[1..]).rest) {
        TokenNonEmpty(Quoted(s[1..]).rest, t);
      }
    } else if t in Split(Bare(s).rest) {
      TokenNonEmpty(Bare(s).rest, t);
    }
  }

  // ----- The loops of the source -----

  method QuoteIfNeeded(s: string) returns (result: string)
    ensures result == Quote(s)
  {
    if !HasSpecial(s) {
      return s;
    }
    result := "\"";
    for i := 0 to |s|
      invariant result + Escape(s[i..]) == "\"" + Escape(s)
    {
      if s[i] == '"' || s[i] == '\\' {
        result := result + "\\";
      }
      result := result + [s[i]];
      assert s[i..][1..] == s[i + 1..];
    }
    result := result + "\"";
  }

  function Prepend(t: string, span: Span): Span { Span(t + span.text, span.rest) }

  lemma PrependCons(t: string, c: char, span: Span)
    ensures Prepend(t, Cons(c, span)) == Prepend(t + [c], span)
  {
    assert t + ([c] + span.text) == t + [c] + span.text;
  }

  /** The body of a quoted token starting at `i`, and the position after its closing quote. */
  method ReadQuoted(input: string, i: nat) returns (token: string, j: nat)
    requires i <= |input|
    ensures i <= j <= |input| && Quoted(input[i..]) == Span(token, input[j..])
  {
    hide Quoted;
    token, j := "", i;
    while j < |input| && input[j] != '"'
      invariant i <= j <= |input|
      invariant Quoted(input[i..]) == Prepend(token, Quoted(input[j..]))
    {
      QuotedStep(input[j..]);
      if input[j] == '\\' && j + 1 < |input| {
        assert input[j..][2..] == input[j + 2..];
        j := j + 1;
      } else {
        assert input[j..][1..] == input[j + 1..];
      }
      PrependCons(token, input[j], Quoted(input[j + 1..]));
      token := token + [input[j]];
      j := j + 1;
    }
    QuotedEnd(input[j..]);
    if j < |input| {
      assert input[j..][1..] == input[j + 1..];
      j := j + 1;
    }
  }

  lemma QuotedEnd(s: string)
    requires s == "" || s[0] == '"'
    ensures Quoted(s) == Span("", if s == "" then "" else s[1..])
  {
  }

  lemma QuotedStep(s: string)
    requires s != "" && s[0] != '"'
    ensures Quoted(s) == if s[0] == '\\' && |s| > 1 then Cons(s[1], Quoted(s[2..])) else Cons(s[0], Quoted(s[1..]))
  {
  }

  method ReadBare(input: string, i: nat) returns (token: string, j: nat)
    requires i <= |input|
    ensures i <= j <= |input| && Bare(input[i..]) == Span(token, input[j..])
  {
    token, j := "", i;
    while j < |input| && !IsSpace(input[j])
      invariant i <= j <= |input|
      invariant Bare(input[i..]) == Prepend(token, Bare(input[j..]))
    {
      assert input[j..][1..] == input[j + 1..];
      PrependCons(token, input[j], Bare(input[j + 1..]));
      token := token + [input[j]];
      j := j + 1;
    }
  }

  method SkipSpaces(input: string, i: nat) returns (j: nat)
    requires i <= |input|
    ensures i <= j <= |input| && Split(input[i..]) == Split(input[j..])
    ensures j < |input| ==> !IsSpace(input[j])
  {
    j := i;
    while j < |input| && IsSpace(input[j])
      invariant i <= j <= |input|
      invariant Split(input[i..]) == Split(input[j..])
    {
      assert input[j..][1..] == input[j + 1..];
      j := j + 1;
    }
  }

  method ReadToken(input: string, i: nat) returns (token: string, j: nat)
    requires i < |input| && !IsSpace(input[i])
    ensures i < j <= |input| && Split(input[i..]) == NonEmpty(token) + Split(input[j..])
  {
    if input[i] == '"' {
      assert input[i..][1..] == input[i + 1..];
      token, j := ReadQuoted(input, i + 1);
    } else {
      token, j := ReadBare(input, i);
      assert token != "";
    }
  }

  method Tokenize(input: string) returns (tokens: seq<string>)
    ensures tokens == Split(input)
  {
    tokens := [];
    var i := 0;
    assert input[0..] == input;
    while i < |input|
      invariant 0 <= i <= |input|
      invariant tokens + Split(input[i..]) == Split(input)
      decreases |input| - i
    {
      i := SkipSpaces(input, i);
      if i >= |input| {
        break;
      }
      var token, j := ReadToken(input, i);
      Regroup(tokens, NonEmpty(token), Split(input[j..]));
      if token != "" {
        tokens := tokens + [token];
      }
      i := j;
    }
    assert input[i..] == "";
  }

  method TrimCommand(input: string) returns (view: string)
    ensures view == Trim(input)
  {
    view := input;
    while view != "" && IsSpace(view[0])
      invariant TrimFront(view) == TrimFront(input)
      decreases |view|
    {
      view := view[1..];
    }
    while view != "" && IsSpace(view[|view| - 1])
      invariant TrimEnd(view) == Trim(input)
      decreases |view|
    {
      view := view[..|view| - 1];
    }
  }

  method ParseCommand(input: string) returns (cmd: Command)
    ensures cmd == Parse(input)
  {
    var trimmed := TrimCommand(input);
    if trimmed == "" {
      return Command(UNKNOWN, []);
    }
    var tokens := Tokenize(trimmed);
    if tokens == [] {
      return Command(UNKNOWN, []);
    }
    var kind := KindOf(ToUpper(tokens[0]));
    var args := [];
    match kind {
      case SET | EXPIRE =>
        if |tokens| >= 3 {
          args := [tokens[1], tokens[2]];
        }
      case GET | DEL | TTL =>
        if |tokens| >= 2 {
          args := [tokens[1]];
        }
      case _ =>
    }
    cmd := Command(kind, args);
    assert |tokens| > Arity(kind) ==> args == tokens[1..Arity(kind) + 1];
  }
}
