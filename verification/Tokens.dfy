/** The token layer of the line protocol and of the log: splitting a line into
    tokens, printing tokens into a line, and when the one undoes the other.
    Characters stand for bytes. */
module Tokens {
  /** The six whitespace characters of the C locale. */
  predicate IsSpace(c: char) { c == ' ' || '\t' <= c <= '\r' }

  /** The characters that make the log writer quote a string. */
  predicate IsSpecial(c: char) { c == ' ' || c == '\t' || c == '"' || c == '\\' }

  predicate HasSpecial(s: string) { exists i :: 0 <= i < |s| && IsSpecial(s[i]) }

  predicate NoSpace(s: string) { forall i :: 0 <= i < |s| ==> !IsSpace(s[i]) }

  predicate NoQuote(s: string) { '"' !in s }

  predicate AtBreak(rest: string) { rest == "" || IsSpace(rest[0]) }

  // ----- Splitting -----

  datatype Span = Span(text: string, rest: string)

  function Cons(c: char, span: Span): Span { Span([c] + span.text, span.rest) }

  /** An unquoted token and what follows it. */
  function Bare(s: string): (r: Span)
    ensures |r.text| + |r.rest| == |s|
  {
    if s == "" || IsSpace(s[0]) then Span("", s) else Cons(s[0], Bare(s[1..]))
  }

  lemma {:induction false} BareParts(s: string)
    ensures s == Bare(s).text + Bare(s).rest && AtBreak(Bare(s).rest)
  {
    if s != "" && !IsSpace(s[0]) {
      BareParts(s[1..]);
      assert s == [s[0]] + s[1..];
    }
  }

  lemma {:induction false} BareNoSpace(s: string)
    ensures NoSpace(Bare(s).text)
  {
    if s != "" && !IsSpace(s[0]) {
      BareNoSpace(s[1..]);
    }
  }

  /** A quoted token, after its opening quote, and what follows its closing quote. */
  function Quoted(s: string): (r: Span)
    ensures |r.rest| <= |s|
  {
    if s == "" then Span("", "")
    else if s[0] == '"' then Span("", s[1..])
    else if s[0] == '\\' && |s| > 1 then Cons(s[1], Quoted(s[2..]))
    else Cons(s[0], Quoted(s[1..]))
  }

  function NonEmpty(t: string): seq<string> { if t == "" then [] else [t] }

  function Split(s: string): seq<string>
    decreases |s|
  {
    if s == "" then []
    else if IsSpace(s[0]) then Split(s[1..])
    else if s[0] == '"' then NonEmpty(Quoted(s[1..]).text) + Split(Quoted(s[1..]).rest)
    else
      assert Bare(s).text != "";
      [Bare(s).text] + Split(Bare(s).rest)
  }

  // ----- Printing -----

  function Escape(s: string): string {
    if s == "" then ""
    else (if s[0] == '"' || s[0] == '\\' then ['\\', s[0]] else [s[0]]) + Escape(s[1..])
  }

  function Quote(s: string): string {
    if HasSpecial(s) then "\"" + Escape(s) + "\"" else s
  }

  /** The tokens, each quoted if needed, joined by single spaces. */
  function Line(ts: seq<string>): string {
    if ts == [] then ""
    else if |ts| == 1 then Quote(ts[0])
    else Quote(ts[0]) + " " + Line(ts[1..])
  }

  /** The strings the log can carry: not empty, and quoted or free of whitespace. */
  predicate Loggable(s: string) { s != "" && (HasSpecial(s) || NoSpace(s)) }

  // ----- Splitting undoes printing -----

  lemma {:induction false} QuotedUndoesEscape(s: string, rest: string)
    ensures Quoted(Escape(s) + "\"" + rest) == Span(s, rest)
  {
    var whole := Escape(s) + "\"" + rest;
    if s == "" {
      assert whole[1..] == rest;
    } else {
      QuotedUndoesEscape(s[1..], rest);
      var tail := Escape(s[1..]) + "\"" + rest;
      if s[0] == '"' || s[0] == '\\' {
        assert whole[2..] == tail;
      } else {
        assert whole[1..] == tail;
      }
      assert [s[0]] + s[1..] == s;
    }
  }

  lemma SplitQuoted(s: string, rest: string)
    requires HasSpecial(s)
    ensures Split(Quote(s) + rest) == [s] + Split(rest)
  {
    var whole := Quote(s) + rest;
    assert whole[1..] == Escape(s) + "\"" + rest;
    QuotedUndoesEscape(s, rest);
  }

  lemma {:induction false} BareWord(w: string, rest: string)
    requires NoSpace(w) && AtBreak(rest)
    ensures Bare(w + rest) == Span(w, rest)
  {
    if w == "" {
      assert w + rest == rest;
    } else {
      assert (w + rest)[1..] == w[1..] + rest;
      BareWord(w[1..], rest);
      assert [w[0]] + w[1..] == w;
    }
  }

  lemma SplitPrinted(s: string, rest: string)
    requires Loggable(s) && AtBreak(rest)
    ensures Split(Quote(s) + rest) == [s] + Split(rest)
  {
    if HasSpecial(s) {
      SplitQuoted(s, rest);
    } else {
      assert !IsSpecial(s[0]);
      BareWord(s, rest);
    }
  }

  lemma {:induction false} SplitLine(ts: seq<string>)
    requires forall t :: t in ts ==> Loggable(t)
    ensures Split(Line(ts)) == ts
  {
    if ts != [] {
      var rest := if |ts| == 1 then "" else " " + Line(ts[1..]);
      assert Line(ts) == Quote(ts[0]) + rest;
      SplitPrinted(ts[0], rest);
      SplitLine(ts[1..]);
      assert |ts| > 1 ==> rest[1..] == Line(ts[1..]);
      assert [ts[0]] + ts[1..] == ts;
    }
  }

  // ----- Printed lines only ever yield loggable tokens -----

  /** A quote-free piece followed by a space is split on its own. */
  lemma {:induction false} SplitQuoteFree(u: string, rest: string)
    requires NoQuote(u) && AtBreak(rest)
    ensures Split(u + rest) == Split(u) + Split(rest)
    ensures forall t :: t in Split(u) ==> Loggable(t)
    decreases |u|
  {
    if u == "" {
      assert u + rest == rest;
    } else if IsSpace(u[0]) {
      assert (u + rest)[1..] == u[1..] + rest;
      SplitQuoteFree(u[1..], rest);
    } else {
      BareParts(u);
      BareNoSpace(u);
      var w, u' := Bare(u).text, Bare(u).rest;
      assert u + rest == w + (u' + rest);
      BareWord(w, u' + rest);
      SplitQuoteFree(u', rest);
    }
  }

  lemma NoSpecialNoQuote(s: string)
    requires !HasSpecial(s)
    ensures NoQuote(s) && Quote(s) == s
  {
  }

  lemma {:induction false} LineTokensLoggable(ts: seq<string>)
    ensures forall t :: t in Split(Line(ts)) ==> Loggable(t)
  {
    if ts != [] {
      var rest := if |ts| == 1 then "" else " " + Line(ts[1..]);
      assert Line(ts) == Quote(ts[0]) + rest;
      LineTokensLoggable(ts[1..]);
      assert |ts| > 1 ==> rest[1..] == Line(ts[1..]);
      if HasSpecial(ts[0]) {
        SplitQuoted(ts[0], rest);
      } else {
        NoSpecialNoQuote(ts[0]);
        SplitQuoteFree(ts[0], rest);
      }
    }
  }

  /** Printing and splitting a list of strings gives it back exactly when each is loggable. */
  lemma {:induction false} SplitUndoesLine(ts: seq<string>)
    ensures Split(Line(ts)) == ts <==> forall t :: t in ts ==> Loggable(t)
  {
    LineTokensLoggable(ts);
    if forall t :: t in ts ==> Loggable(t) {
      SplitLine(ts);
    }
  }

  /** A token holds only characters of its line. */
  lemma {:induction false} SplitChars(s: string, t: string, c: char)
    requires t in Split(s) && c in t
    ensures t != "" && c in s
    decreases |s|
  {
    if IsSpace(s[0]) {
      SplitChars(s[1..], t, c);
    } else if s[0] == '"' {
      if t != Quoted(s[1..]).text {
        SplitChars(Quoted(s[1..]).rest, t, c);
      }
      QuotedChars(s[1..], c);
    } else {
      BareParts(s);
      if t != Bare(s).text {
        SplitChars(Bare(s).rest, t, c);
      }
    }
  }

  lemma {:induction false} QuotedChars(s: string, c: char)
    requires c in Quoted(s).text || c in Quoted(s).rest
    ensures c in s
  {
    if s[0] == '"' {
    } else if s[0] == '\\' && |s| > 1 {
      if c != s[1] {
        QuotedChars(s[2..], c);
      }
    } else if c != s[0] {
      QuotedChars(s[1..], c);
    }
  }

  // ----- Trimming -----

  function TrimFront(s: string): string {
    if s != "" && IsSpace(s[0]) then TrimFront(s[1..]) else s
  }

  function TrimEnd(s: string): string {
    if s != "" && IsSpace(s[|s| - 1]) then TrimEnd(s[..|s| - 1]) else s
  }

  /** Trimming the end of `a + b` trims `b`, and goes on into `a` only if nothing is left of `b`. */
  lemma {:induction false} TrimEndAppend(a: string, b: string)
    ensures TrimEnd(a + b) == if TrimEnd(b) == "" then TrimEnd(a) else a + TrimEnd(b)
  {
    if b == "" {
      assert a + b == a;
    } else {
      var n := |b| - 1;
      assert (a + b)[|a + b| - 1] == b[n];
      if IsSpace(b[n]) {
        assert (a + b)[..|a + b| - 1] == a + b[..n];
        TrimEndAppend(a, b[..n]);
      }
    }
  }

  /** Trimming drops characters only. */
  lemma {:induction false} TrimChars(s: string)
    ensures forall c :: c in TrimFront(s) ==> c in s
    ensures forall c :: c in TrimEnd(s) ==> c in s
    decreases |s|
  {
    if s != "" {
      if IsSpace(s[0]) {
        TrimChars(s[1..]);
      }
      if IsSpace(s[|s| - 1]) {
        TrimChars(s[..|s| - 1]);
      }
    }
  }

  lemma NoSpecialPart(s: string)
    requires !HasSpecial(s)
    ensures !HasSpecial(TrimEnd(s))
  {
    TrimChars(s);
    forall i | 0 <= i < |TrimEnd(s)|
      ensures !IsSpecial(TrimEnd(s)[i])
    {
      assert TrimEnd(s)[i] in s;
    }
  }

  /** The printed form of a last token, trimmed, is empty or the printed form of some token. */
  lemma TrimQuote(t: string) returns (t': string)
    ensures TrimEnd(Quote(t)) == Quote(t')
  {
    if HasSpecial(t) {
      t' := t;
    } else {
      t' := TrimEnd(t);
      NoSpecialPart(t);
    }
  }

  /** The end-trimmed print of a list is the print of some list. */
  lemma {:induction false} TrimLine(ts: seq<string>) returns (ts': seq<string>)
    ensures TrimEnd(Line(ts)) == Line(ts')
  {
    if ts == [] {
      ts' := [];
    } else if |ts| == 1 {
      var t' := TrimQuote(ts[0]);
      ts' := [t'];
    } else {
      var rest' := TrimLine(ts[1..]);
      var head := Quote(ts[0]) + " ";
      TrimEndAppend(head, Line(ts[1..]));
      if Line(rest') == "" {
        TrimEndAppend(Quote(ts[0]), " ");
        assert " "[..0] == "";
        var t' := TrimQuote(ts[0]);
        ts' := [t'];
      } else {
        ts' := [ts[0]] + rest';
        assert ts'[1..] == rest';
        assert rest' != [];
      }
    }
  }

  lemma {:induction false} LineEndsInToken(ts: seq<string>)
    requires ts != [] && forall t :: t in ts ==> Loggable(t)
    ensures Line(ts) != "" && TrimEnd(Line(ts)) == Line(ts)
  {
    assert ts[0] in ts;
    if |ts| == 1 {
      var t := ts[0];
      assert !HasSpecial(t) ==> !IsSpace(t[|t| - 1]);
    } else {
      LineEndsInToken(ts[1..]);
      TrimEndAppend(Quote(ts[0]) + " ", Line(ts[1..]));
    }
  }
}
