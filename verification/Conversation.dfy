/** What a client is told about the lines it writes, and what replay makes of the
    lines of a log, in terms of the lines themselves. */
module Conversation {
  import opened Basics
  import opened Shards
  import opened Stores
  import opened Tokens
  import opened Decimal
  import opened Parser
  import opened Grammar
  import opened Commands
  import opened Sessions
  import Protocol

  /** The response to a line. */
  function Answer(h: Hash, s: Session, line: string, tick: Tick): Response {
    Dispatch(h, s.store, s.counters, Parse(line), tick).response
  }

  function Hear(h: Hash, s: Session, line: string, tick: Tick): Session { Serve(h, s, Ask(Parse(line), tick)) }

  /** The line of a command word, in any letters, and its arguments, quoted where they need it. */
  ghost predicate Says(line: string, name: string, args: seq<string>) {
    (forall t :: t in args ==> Loggable(t)) && exists w :: Spells(w, name) && line == Line([w] + args)
  }

  lemma SaysParses(i: nat, line: string, args: seq<string>)
    requires i < |FORMS| && Says(line, FORMS[i].name, args)
    ensures var f := FORMS[i]; Parse(line) == Command(f.kind, if |args| >= f.arity then args[..f.arity] else [])
  {
    var w :| Spells(w, FORMS[i].name) && line == Line([w] + args);
    ParseQuoted(i, w, args);
  }

  lemma SaysOne(i: nat, line: string, k: string)
    requires i < |FORMS| && Says(line, FORMS[i].name, [k]) && FORMS[i].arity == 1
    ensures Parse(line) == Command(FORMS[i].kind, [k])
  {
    SaysParses(i, line, [k]);
    assert [k][..1] == [k];
  }

  lemma SaysTwo(i: nat, line: string, k: string, v: string)
    requires i < |FORMS| && Says(line, FORMS[i].name, [k, v]) && FORMS[i].arity == 2
    ensures Parse(line) == Command(FORMS[i].kind, [k, v])
  {
    SaysParses(i, line, [k, v]);
    assert [k, v][..2] == [k, v];
  }

  // ----- Set, get, delete -----

  lemma SetHeld(h: Hash, st: Store, k: string, v: string)
    ensures Lookup(h, Apply(h, st, Set(k, v)), k) == Some(Entry(v, None))
  {
  }

  /** After any session `SET k v` is answered OK, and then `GET k` with the value, `TTL k` with -1 and
      `DEL k` with 1. */
  lemma {:induction false} SetThenAsk(h: Hash, s: Session, k: string, v: string, set': string, get: string, ttl: string,
    del: string, t: Tick, t': Tick)
    requires Says(set', "SET", [k, v]) && Says(get, "GET", [k]) && Says(ttl, "TTL", [k]) && Says(del, "DEL", [k])
    ensures var s' := Hear(h, s, set', t);
      && Answer(h, s, set', t) == Okay && Answer(h, s', get, t') == Text(v)
      && Answer(h, s', ttl, t') == Integer(-1) && Answer(h, s', del, t') == Integer(1)
  {
    hide Parse, Apply, Says;
    NamesOfForms();
    SaysTwo(1, set', k, v);
    SaysOne(2, get, k);
    SaysOne(5, ttl, k);
    SaysOne(3, del, k);
    SetHeld(h, s.store, k, v);
  }

  lemma DelHeld(h: Hash, st: Store, k: string, now: int)
    ensures Lookup(h, Apply(h, st, Del(k, now)), k).None?
  {
  }

  /** After any session, once `DEL k` has been heard, `GET k` is answered with nil, `TTL k` with -2 and
      `DEL k` with 0. */
  lemma {:induction false} DelThenAsk(h: Hash, s: Session, k: string, get: string, ttl: string, del: string,
    t: Tick, t': Tick)
    requires Says(get, "GET", [k]) && Says(ttl, "TTL", [k]) && Says(del, "DEL", [k])
    ensures var s' := Hear(h, s, del, t);
      && Answer(h, s', get, t') == Nil && Answer(h, s', ttl, t') == Integer(-2) && Answer(h, s', del, t') == Integer(0)
  {
    hide Parse, Apply, Says;
    NamesOfForms();
    SaysOne(2, get, k);
    SaysOne(5, ttl, k);
    SaysOne(3, del, k);
    DelHeld(h, s.store, k, t.first);
  }

  // ----- Deadlines -----

  lemma ExpireHeld(h: Hash, st: Store, k: string, n: nat, now: int, later: int)
    requires Lookup(h, st, k).Some? && !Expired(Lookup(h, st, k).value, now)
    ensures At(h, st, Expire(k, n, now, later)).answer == Flag(true)
    ensures var e := Lookup(h, Apply(h, st, Expire(k, n, now, later)), k);
      e.Some? && e.value.deadline == Some(later + n * 1_000_000_000)
  {
  }

  lemma RemainingAll(d: int, n: nat)
    ensures Remaining(d + n * 1_000_000_000, d) == n
  {
    assert n * 1_000_000_000 / NANOS == n;
  }

  /** After any session in which `k` is there, `EXPIRE k n` is answered 1, and `TTL k` asked at the same
      moment is answered `n` if and only if `n` fits 32 bits; larger ones wrap around. */
  lemma {:induction false} ExpireThenTtl(h: Hash, s: Session, k: string, n: int, expire: string, ttl: string, t: Tick)
    requires Says(expire, "EXPIRE", [k, ToText(n)]) && Says(ttl, "TTL", [k]) && 0 < n <= 9223372036854775807
    requires Lookup(h, s.store, k).Some? && !Expired(Lookup(h, s.store, k).value, t.first)
    ensures var s', at := Hear(h, s, expire, t), Tick(t.second, t.second);
      && Answer(h, s, expire, t) == Integer(1)
      && (Answer(h, s', ttl, at) == Integer(n) <==> n <= 2147483647)
  {
    hide Parse, Apply, Says, Stoll, ToText, Remaining;
    NamesOfForms();
    SaysTwo(4, expire, k, ToText(n));
    SaysOne(5, ttl, k);
    StollUndoesToText(n);
    ExpireHeld(h, s.store, k, n, t.first, t.second);
    RemainingAll(t.second, n);
    Protocol.Int32Means(n);
  }

  // ----- The lines of a log -----

  /** Replay performs SET, DEL and EXPIRE with arguments enough, and fails those with too few. */
  lemma {:induction false} ReplayedLines(line: string, args: seq<string>)
    requires line != ""
    ensures Says(line, "SET", args) ==>
      Decode(line) == if |args| >= 2 then Perform(SetRecord(args[0], args[1])) else Fail
    ensures Says(line, "DEL", args) ==> Decode(line) == if |args| >= 1 then Perform(DelRecord(args[0])) else Fail
    ensures Says(line, "EXPIRE", args) && |args| < 2 ==> Decode(line) == Fail
    ensures Says(line, "PING", args) || Says(line, "GET", args) || Says(line, "TTL", args) || Says(line, "STATS", args)
            ==> Decode(line) == Skip
  {
    hide Parse, Says;
    NamesOfForms();
    forall i | 0 <= i < |FORMS| && Says(line, FORMS[i].name, args)
      ensures var f := FORMS[i]; Parse(line) == Command(f.kind, if |args| >= f.arity then args[..f.arity] else [])
    {
      SaysParses(i, line, args);
    }
  }

  /** It performs EXPIRE with a positive number and fails it otherwise; it skips empty lines and lines that
      name no command. */
  lemma {:induction false} ReplayedDeadlines(line: string, k: string, text: string)
    requires line != "" && Says(line, "EXPIRE", [k, text])
    ensures Decode(line)
      == if Stoll(text).Some? && Stoll(text).value > 0 then Perform(ExpireRecord(k, Stoll(text).value)) else Fail
    ensures Decode("") == Skip
  {
    hide Parse, Says, Stoll;
    NamesOfForms();
    SaysTwo(4, line, k, text);
  }

  lemma {:induction false} SkippedLines(words: seq<string>, gaps: seq<string>)
    requires Spacing(words, gaps)
    requires words != [] ==> forall i :: 0 <= i < |FORMS| ==> !Spells(words[0], FORMS[i].name)
    ensures Decode(Sentence(words, gaps)) == Skip
  {
    ParseOther(words, gaps);
  }
}
