/** Newline-terminated text: what `getline` reads from a file of written lines. */
module Lines {
  /** Position of the first newline, or the length if there is none. */
  function FindNewline(s: string): (i: nat)
    ensures i <= |s| && '\n' !in s[..i] && (i < |s| ==> s[i] == '\n')
  {
    if s == "" || s[0] == '\n' then 0
    else
      var i := 1 + FindNewline(s[1..]);
      assert s[..i] == [s[0]] + s[1..][..i - 1];
      i
  }

  lemma FindUnique(s: string, i: nat)
    requires i <= |s| && '\n' !in s[..i] && (i < |s| ==> s[i] == '\n')
    ensures FindNewline(s) == i
  {
  }

  function GetLines(s: string): seq<string>
    decreases |s|
  {
    var i := FindNewline(s);
    if s == "" then []
    else if i == |s| then [s]
    else [s[..i]] + GetLines(s[i + 1..])
  }

  function Unlines(ls: seq<string>): string {
    if ls == [] then "" else ls[0] + "\n" + Unlines(ls[1..])
  }

  lemma {:induction false} GetLinesPlain(s: string)
    ensures forall l :: l in GetLines(s) ==> '\n' !in l
    decreases |s|
  {
    var i := FindNewline(s);
    if s != "" {
      assert s[..|s|] == s;
      if i < |s| {
        GetLinesPlain(s[i + 1..]);
      }
    }
  }

  lemma {:induction false} GetLinesOfPlain(ls: seq<string>)
    requires forall l :: l in ls ==> '\n' !in l
    ensures GetLines(Unlines(ls)) == ls
  {
    if ls != [] {
      var s := Unlines(ls);
      var i := |ls[0]|;
      assert ls[0] in ls;
      assert s[..i] == ls[0] && s[i] == '\n' && s[i + 1..] == Unlines(ls[1..]);
      FindUnique(s, i);
      GetLinesOfPlain(ls[1..]);
      assert [ls[0]] + ls[1..] == ls;
    }
  }

  lemma GetLinesCut(s: string, i: nat)
    requires i < |s| && '\n' !in s[..i] && s[i] == '\n'
    ensures GetLines(s) == [s[..i]] + GetLines(s[i + 1..])
  {
    FindUnique(s, i);
  }

  lemma GetLinesRest(rest: string)
    requires '\n' !in rest
    ensures GetLines(rest) == if rest == "" then [] else [rest]
  {
    assert rest[..|rest|] == rest;
    FindUnique(rest, |rest|);
  }

  /** Text after the last newline is a line of its own, unless there is none. */
  lemma {:induction false} GetLinesOfText(ls: seq<string>, rest: string)
    requires (forall l :: l in ls ==> '\n' !in l) && '\n' !in rest
    ensures GetLines(Unlines(ls) + rest) == ls + if rest == "" then [] else [rest]
  {
    hide GetLines;
    var s, tail := Unlines(ls) + rest, if rest == "" then [] else [rest];
    if ls == [] {
      GetLinesRest(rest);
      assert s == rest && [] + tail == tail;
    } else {
      var i := |ls[0]|;
      assert ls[0] in ls;
      assert s[..i] == ls[0] && s[i] == '\n' && s[i + 1..] == Unlines(ls[1..]) + rest;
      GetLinesCut(s, i);
      GetLinesOfText(ls[1..], rest);
      assert [ls[0]] + (ls[1..] + tail) == ls + tail;
    }
  }

  /** Reading back a file of written lines gives them exactly when none holds a newline. */
  lemma {:induction false} GetLinesUndoesUnlines(ls: seq<string>)
    ensures GetLines(Unlines(ls)) == ls <==> forall l :: l in ls ==> '\n' !in l
  {
    GetLinesPlain(Unlines(ls));
    if forall l :: l in ls ==> '\n' !in l {
      GetLinesOfPlain(ls);
    }
  }
}
