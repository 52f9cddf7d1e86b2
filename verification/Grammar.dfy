/** What a client may write: which lines are which commands, told without the
    parser's own tables. */
module Grammar {
  import opened Basics
  import opened Tokens
  import opened Decimal
  import opened Parser

  // ----- Words and gaps -----

  /** Tab, newline, vertical tab, form feed, carriage return and space. */
  predicate Blank(c: char) { c as int in {9, 10, 11, 12, 13, 32} }

  predicate Gap(g: string) { forall c :: c in g ==> Blank(c) }

  /** A word is written as it is unless it starts with a quote or holds a blank. */
  predicate BareWritten(w: string) { w != "" && w[0] != '"' && forall c :: c in w ==> !Blank(c) }

  /** The gaps around and between words; those between are not empty. */
  ghost predicate Spacing(words: seq<string>, gaps: seq<string>) {
    && |gaps| == |words| + 1
    && (forall w :: w in words ==> BareWritten(w))
    && (forall i :: 0 <= i < |gaps| ==> Gap(gaps[i]))
    && (forall i :: 0 < i < |words| ==> gaps[i] != "")
  }

  function Sentence(words: seq<string>, gaps: seq<string>): string
    requires |gaps| == |words| + 1
  {
    if words == [] then gaps[0] else gaps[0] + words[0] + Sentence(words[1..], gaps[1..])
  }

  lemma SpacingTail(words: seq<string>, gaps: seq<string>)
    requires Spacing(words, gaps) && words != []
    ensures Spacing(words[1..], gaps[1..])
    ensures AtBreak(Sentence(words[1..], gaps[1..]))
  {
    assert forall w :: w in words[1..] ==> w in words;
    var g := gaps[1..][0];
    if |words| == 1 {
      assert g == "" || g[0] in g;
    } else {
      assert g != "" && g[0] in g;
    }
  }

  lemma {:induction false} SplitGap(g: string, rest: string)
    requires Gap(g)
    ensures Split(g + rest) == Split(rest)
  {
    if g == "" {
      assert g + rest == rest;
    } else {
      assert g[0] in g;
      assert forall c :: c in g[1..] ==> c in g;
      assert (g + rest)[1..] == g[1..] + rest;
      SplitGap(g[1..], rest);
    }
  }

  lemma SplitBare(w: string, rest: string)
    requires BareWritten(w) && AtBreak(rest)
    ensures Split(w + rest) == [w] + Split(rest)
  {
    assert forall i :: 0 <= i < |w| ==> w[i] in w;
    BareWord(w, rest);
    assert (w + rest)[0] == w[0];
  }

  lemma {:induction false} SplitSentence(words: seq<string>, gaps: seq<string>)
    requires Spacing(words, gaps)
    ensures Split(Sentence(words, gaps)) == words
  {
    var g := gaps[0];
    if words == [] {
      assert g + "" == g;
      SplitGap(g, "");
    } else {
      var w, rest := words[0], Sentence(words[1..], gaps[1..]);
      SpacingTail(words, gaps);
      SplitSentence(words[1..], gaps[1..]);
      assert w in words;
      SplitBare(w, rest);
      Regroup(g, w, rest);
      SplitGap(g, w + rest);
      assert [w] + words[1..] == words;
    }
  }

  lemma {:induction false} SplitTrimFront(s: string)
    ensures Split(TrimFront(s)) == Split(s)
  {
    if s != "" && IsSpace(s[0]) {
      SplitTrimFront(s[1..]);
    }
  }

  lemma {:induction false} TrimEndGap(g: string)
    requires Gap(g)
    ensures TrimEnd(g) == ""
  {
    if g != "" {
      assert g[|g| - 1] in g;
      TrimEndGap(g[..|g| - 1]);
    }
  }

  lemma TrimEndWord(a: string, w: string)
    requires BareWritten(w)
    ensures TrimEnd(a + w) == a + w
  {
    assert w[|w| - 1] in w;
    assert (a + w)[|a + w| - 1] == w[|w| - 1];
  }

  lemma {:induction false} TrimEndSentence(words: seq<string>, gaps: seq<string>)
    requires Spacing(words, gaps) && words != []
    ensures var n := |words|; TrimEnd(Sentence(words, gaps)) == Sentence(words, gaps[n := ""]) != ""
  {
    var n, head := |words|, gaps[0] + words[0];
    var tail := Sentence(words[1..], gaps[1..]);
    assert words[0] in words;
    SpacingTail(words, gaps);
    TrimEndAppend(head, tail);
    assert gaps[n := ""][1..] == gaps[1..][n - 1 := ""];
    if n == 1 {
      TrimEndGap(tail);
      TrimEndWord(gaps[0], words[0]);
    } else {
      TrimEndSentence(words[1..], gaps[1..]);
    }
  }

  lemma {:induction false} TrimFrontGap(g: string, rest: string)
    requires Gap(g)
    ensures TrimFront(g + rest) == TrimFront(rest)
  {
    if g == "" {
      assert g + rest == rest;
    } else {
      assert g[0] in g;
      assert (g + rest)[1..] == g[1..] + rest;
      TrimFrontGap(g[1..], rest);
    }
  }

  /** Trimming takes the outer gaps away. */
  lemma TrimSentence(words: seq<string>, gaps: seq<string>)
    requires Spacing(words, gaps)
    ensures Split(Trim(Sentence(words, gaps))) == words
  {
    var n := |words|;
    if n == 0 {
      assert gaps[0] + "" == gaps[0];
      TrimFrontGap(gaps[0], "");
    } else {
      var inner := gaps[0 := ""];
      var w, rest := words[0], Sentence(words[1..], gaps[1..]);
      assert inner[1..] == gaps[1..] && "" + w == w;
      assert w in words && w[0] in w;
      Regroup(gaps[0], w, rest);
      TrimFrontGap(gaps[0], w + rest);
      assert (w + rest)[0] == w[0];
      assert TrimFront(Sentence(words, gaps)) == Sentence(words, inner);
      TrimEndSentence(words, inner);
      SplitSentence(words, inner[n := ""]);
    }
  }

  lemma {:induction false} TrimFrontAppend(s: string, g: string)
    requires Gap(g)
    ensures TrimEnd(TrimFront(s + g)) == TrimEnd(TrimFront(s))
  {
    if s == "" {
      assert s + g == g && g + "" == g;
      TrimFrontGap(g, "");
    } else if IsSpace(s[0]) {
      assert (s + g)[1..] == s[1..] + g;
      TrimFrontAppend(s[1..], g);
    } else {
      assert (s + g)[0] == s[0];
      TrimEndAppend(s, g);
      TrimEndGap(g);
    }
  }

  /** Blanks around any line whatever change nothing. */
  lemma {:induction false} ParseTrimmed(g: string, line: string, g': string)
    requires Gap(g) && Gap(g')
    ensures Parse(g + (line + g')) == Parse(line)
  {
    TrimFrontGap(g, line + g');
    TrimFrontAppend(line, g');
  }

  // ----- The commands -----

  datatype Form = Form(name: string, kind: Kind, arity: nat)

  const FORMS := [Form("PING", PING, 0), Form("SET", SET, 2), Form("GET", GET, 1), Form("DEL", DEL, 1),
                  Form("EXPIRE", EXPIRE, 2), Form("TTL", TTL, 1), Form("STATS", STATS, 0)]

  /** The word is the name in any mixture of capital and small letters. */
  predicate Spells(w: string, name: string) {
    && |w| == |name|
    && forall i :: 0 <= i < |w| ==> w[i] == name[i] || ('A' <= name[i] <= 'Z' && w[i] as int == name[i] as int + 32)
  }

  predicate Capitals(name: string) { forall i :: 0 <= i < |name| ==> 'A' <= name[i] <= 'Z' }

  lemma UpperSpells(w: string, name: string)
    requires Capitals(name)
    ensures ToUpper(w) == name <==> Spells(w, name)
  {
    if ToUpper(w) == name {
      assert forall i :: 0 <= i < |w| ==> ToUpper(w)[i] == name[i];
    }
  }

  /** The words of a command: the first names it in any letters, the next are its arguments, further ones
      are ignored, and with too few it has none. */
  lemma InterpretForm(i: nat, w: string, args: seq<string>)
    requires i < |FORMS| && Spells(w, FORMS[i].name)
    ensures var f := FORMS[i];
      Interpret([w] + args) == Command(f.kind, if |args| >= f.arity then args[..f.arity] else [])
  {
    hide Spells, ToUpper;
    var f := FORMS[i];
    UpperSpells(w, f.name);
    if |args| >= f.arity {
      AfterFirst(w, args, f.arity);
    }
  }

  lemma AfterFirst(w: string, args: seq<string>, n: nat)
    requires n <= |args|
    ensures ([w] + args)[1..n + 1] == args[..n]
  {
  }

  lemma InterpretOther(w: string, args: seq<string>)
    requires forall i :: 0 <= i < |FORMS| ==> !Spells(w, FORMS[i].name)
    ensures Interpret([w] + args) == Command(UNKNOWN, [])
  {
    hide ToUpper, Spells;
    forall i | 0 <= i < |FORMS|
      ensures ToUpper(w) != FORMS[i].name
    {
      UpperSpells(w, FORMS[i].name);
    }
    NamesOfForms();
  }

  lemma NamesOfForms()
    ensures FORMS[0].name == "PING" && FORMS[1].name == "SET" && FORMS[2].name == "GET" && FORMS[3].name == "DEL"
    ensures FORMS[4].name == "EXPIRE" && FORMS[5].name == "TTL" && FORMS[6].name == "STATS" && |FORMS| == 7
  {
  }

  /** Any such line, however its words are spaced, parses as the command it names. */
  lemma {:induction false} ParseForm(i: nat, w: string, args: seq<string>, gaps: seq<string>)
    requires i < |FORMS| && Spells(w, FORMS[i].name) && Spacing([w] + args, gaps)
    ensures var f := FORMS[i];
      Parse(Sentence([w] + args, gaps)) == Command(f.kind, if |args| >= f.arity then args[..f.arity] else [])
  {
    TrimSentence([w] + args, gaps);
    InterpretForm(i, w, args);
  }

  /** And every other line of such words as no command. */
  lemma {:induction false} ParseOther(words: seq<string>, gaps: seq<string>)
    requires Spacing(words, gaps)
    requires words != [] ==> forall i :: 0 <= i < |FORMS| ==> !Spells(words[0], FORMS[i].name)
    ensures Parse(Sentence(words, gaps)) == Command(UNKNOWN, [])
  {
    TrimSentence(words, gaps);
    if words != [] {
      InterpretOther(words[0], words[1..]);
      assert [words[0]] + words[1..] == words;
    }
  }

  lemma SpelledLoggable(i: nat, w: string)
    requires i < |FORMS| && Spells(w, FORMS[i].name)
    ensures Loggable(w)
  {
    var name := FORMS[i].name;
    assert Capitals(name) && name != "";
    assert forall j :: 0 <= j < |w| ==> 'A' <= w[j] <= 'z';
  }

  /** The same for arguments that are quoted where they need it, so of any characters. */
  lemma {:induction false} ParseQuoted(i: nat, w: string, args: seq<string>)
    requires i < |FORMS| && Spells(w, FORMS[i].name) && forall t :: t in args ==> Loggable(t)
    ensures var f := FORMS[i];
      Parse(Line([w] + args)) == Command(f.kind, if |args| >= f.arity then args[..f.arity] else [])
  {
    var ts := [w] + args;
    SpelledLoggable(i, w);
    TrimFrontLine(ts);
    LineEndsInToken(ts);
    SplitLine(ts);
    InterpretForm(i, w, args);
  }

  // ----- Quoting -----

  predicate Unmarked(s: string) { '"' !in s && '\\' !in s }

  lemma {:induction false} QuotedUnmarked(s: string, rest: string)
    requires Unmarked(s)
    ensures Quoted(s + rest) == Span(s + Quoted(rest).text, Quoted(rest).rest)
  {
    if s == "" {
      assert s + rest == rest && "" + Quoted(rest).text == Quoted(rest).text;
    } else {
      assert s[0] in s;
      assert forall c :: c in s[1..] ==> c in s;
      assert (s + rest)[1..] == s[1..] + rest;
      QuotedUnmarked(s[1..], rest);
      assert [s[0]] + (s[1..] + Quoted(rest).text) == s + Quoted(rest).text;
    }
  }

  /** Inside quotes a backslash stands for the character after it, whatever that is, and a quote ends the
      token. */
  lemma {:induction false} QuotedToken(a: string, c: char, b: string, rest: string)
    requires Unmarked(a) && Unmarked(b)
    ensures Split("\"" + (a + ("\\" + [c] + (b + ("\"" + rest))))) == [a + [c] + b] + Split(rest)
  {
    var end := "\"" + rest;
    var mid := "\\" + [c] + (b + end);
    assert end[1..] == rest;
    QuotedUnmarked(b, end);
    assert b + "" == b;
    assert mid[2..] == b + end && mid[1] == c;
    assert Quoted(mid) == Span([c] + b, rest);
    QuotedUnmarked(a, mid);
    assert a + ([c] + b) == a + [c] + b;
    assert ("\"" + (a + mid))[1..] == a + mid;
  }

  /** A quote that is not closed runs to the end of the line, where a lone backslash stands for itself; an
      empty token is none. */
  lemma {:induction false} QuotedEnds(a: string, rest: string)
    requires Unmarked(a)
    ensures Split("\"" + a) == (if a == "" then [] else [a]) && Split("\"" + (a + "\\")) == [a + "\\"]
    ensures Split("\"\"" + rest) == Split(rest)
  {
    assert a + "" == a;
    QuotedUnmarked(a, "");
    QuotedUnmarked(a, "\\");
    assert Quoted("\\") == Span("\\", "");
    assert ("\"" + a)[1..] == a && ("\"" + (a + "\\"))[1..] == a + "\\";
    assert ("\"\"" + rest)[1..] == "\"" + rest && ("\"" + rest)[1..] == rest;
  }

  /** What the log writer leaves as it is, and the marks it puts around the rest. */
  lemma {:induction false} QuoteMeans(s: string)
    ensures Quote(s) == s <==> forall c :: c in s ==> c != ' ' && c != '\t' && c != '"' && c != '\\'
    ensures Quote(s) != s ==> Quote(s) == "\"" + Escape(s) + "\""
    ensures Unmarked(s) ==> Escape(s) == s
  {
    EscapeGrows(s);
    if HasSpecial(s) {
      var i :| 0 <= i < |s| && IsSpecial(s[i]);
      assert s[i] in s && |Quote(s)| > |s|;
    } else {
      forall c | c in s
        ensures c != ' ' && c != '\t' && c != '"' && c != '\\'
      {
        var i :| 0 <= i < |s| && s[i] == c;
        assert !IsSpecial(s[i]);
      }
    }
  }

  lemma {:induction false} EscapeGrows(s: string)
    ensures |Escape(s)| >= |s| && (Unmarked(s) ==> Escape(s) == s)
  {
    if s != "" {
      EscapeGrows(s[1..]);
      assert s[0] in s;
      assert forall c :: c in s[1..] ==> c in s;
    }
  }

  /** The log lines of words that need no quoting. */
  lemma {:induction false} LogFormat(k: string, v: string)
    requires Quote(k) == k && Quote(v) == v
    ensures Print(SetRecord(k, v)) == "SET " + k + " " + v && Print(DelRecord(k)) == "DEL " + k
    ensures Print(ExpireRecord(k, 60)) == "EXPIRE " + k + " 60"
  {
    assert " " + "60" == " 60";
  }

  // ----- Numbers -----

  predicate Numeric(s: string) { forall i :: 0 <= i < |s| ==> 48 <= s[i] as int <= 57 }

  function Numeral(ds: string): nat
    requires Numeric(ds)
  {
    if ds == "" then 0
    else
      var n := |ds| - 1;
      10 * Numeral(ds[..n]) + (ds[n] as int - 48)
  }

  lemma {:induction false} AccumulateNumeral(ds: string)
    requires Numeric(ds)
    ensures Accumulate(ds, 0) == Numeral(ds)
  {
    if ds != "" {
      var n := |ds| - 1;
      assert forall c :: c in ds[..n] ==> IsDigit(c);
      AccumulateNumeral(ds[..n]);
      AccumulateAppend(ds[..n], [ds[n]], 0);
      assert ds[..n] + [ds[n]] == ds;
      assert Accumulate([ds[n]][1..], 10 * Numeral(ds[..n]) + DigitValue(ds[n]))
        == 10 * Numeral(ds[..n]) + DigitValue(ds[n]);
    }
  }

  /** Text that does not go on with a digit. */
  predicate NoDigit(s: string) { s == "" || !(48 <= s[0] as int <= 57) }

  function Signed(sign: string, m: int): int { if sign == "-" then -m else m }

  predicate Sign(s: string) { s == "" || s == "+" || s == "-" }

  /** Reading a number: blanks, a sign, digits in base ten, anything else after them ignored; outside 64 bits
      it fails. */
  lemma {:induction false} StollReads(g: string, sign: string, ds: string, junk: string)
    requires Gap(g) && Sign(sign) && ds != "" && Numeric(ds) && NoDigit(junk)
    ensures var n := Signed(sign, Numeral(ds));
      Stoll(g + (sign + (ds + junk)))
      == if -9223372036854775808 <= n <= 9223372036854775807 then Some(n) else None
  {
    var body := ds + junk;
    var t := sign + body;
    assert forall c :: c in ds ==> IsDigit(c);
    TrimFrontGap(g, t);
    AccumulateNumeral(ds);
    AccumulateAppend(ds, junk, 0);
    assert sign == "" ==> t == body;
    assert sign != "" ==> t[1..] == body;
  }

  /** And without a digit there it fails. */
  lemma {:induction false} StollFails(g: string, sign: string, junk: string)
    requires Gap(g) && Sign(sign) && NoDigit(junk)
    requires sign == "" ==> junk == "" || !(Blank(junk[0]) || junk[0] == '+' || junk[0] == '-')
    ensures Stoll(g + (sign + junk)) == None
  {
    var t := sign + junk;
    TrimFrontGap(g, t);
    assert sign == "" ==> t == junk;
    assert sign != "" ==> t[1..] == junk;
  }

  /** A printed number is its digits in base ten, without leading zeros, after a minus if it is negative. */
  lemma {:induction false} ToTextReads(n: int)
    ensures var ds := if n < 0 then ToText(n)[1..] else ToText(n);
      && (n < 0 ==> ToText(n)[0] == '-')
      && Numeric(ds) && Numeral(ds) == (if n < 0 then -n else n) && (n != 0 ==> ds[0] != '0') && (n == 0 ==> ds == "0")
  {
    var m := if n < 0 then -n else n;
    DigitsRead(m);
    assert n < 0 ==> ToText(n)[1..] == Digits(m);
  }

  lemma {:induction false} DigitsRead(m: nat)
    ensures Numeric(Digits(m)) && Numeral(Digits(m)) == m && (m > 0 ==> Digits(m)[0] != '0')
  {
    forall i | 0 <= i < |Digits(m)|
      ensures 48 <= Digits(m)[i] as int <= 57
    {
      assert Digits(m)[i] in Digits(m);
    }
    if m >= 10 {
      DigitsRead(m / 10);
      assert Digits(m)[..|Digits(m)| - 1] == Digits(m / 10);
    } else {
      assert Digits(m)[..0] == "";
    }
  }
}
