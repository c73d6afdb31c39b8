/** The parser of sh.c: recursive descent over a cursor in the input line, then NUL termination of
    the words in place. */
module Shell {
  import opened ShellGrammar
  import opened ShellLexer
  import opened ShellSyntax

  /** A word as argv and eargv hold it: where it starts and where it ends. */
  datatype Tok = Tok(q: nat, eq: nat)

  datatype Parsed = Done(cmd: Cmd<Tok>) | Fail(error: Error)

  /** t is a whole word of s. */
  predicate IsWord(s: string, t: Tok) {
    && t.q < t.eq <= |s|
    && (forall k :: t.q <= k < t.eq ==> WordChar(s[k]))
    && (t.eq < |s| ==> !WordChar(s[t.eq]))
  }

  predicate AreWords(s: string, ts: seq<Tok>) { forall k :: 0 <= k < |ts| ==> IsWord(s, ts[k]) }

  predicate Placed(s: string, c: Cmd<Tok>) {
    match c
    case Exec(argv) => AreWords(s, argv)
    case Redir(b, f, _, _) => IsWord(s, f) && Placed(s, b)
    case Pipe(l, r) => Placed(s, l) && Placed(s, r)
    case List(l, r) => Placed(s, l) && Placed(s, r)
    case Back(b) => Placed(s, b)
  }

  function Texts(s: string, ts: seq<Tok>): (ws: seq<string>)
    requires AreWords(s, ts)
    ensures |ws| == |ts|
  {
    if ts == [] then [] else Texts(s, ts[..|ts| - 1]) + [s[ts[|ts| - 1].q..ts[|ts| - 1].eq]]
  }

  /** The tree with the words themselves in the place of their positions. */
  function TextOf(s: string, c: Cmd<Tok>): (t: Cmd<string>)
    requires Placed(s, c)
  {
    match c
    case Exec(argv) => Exec(Texts(s, argv))
    case Redir(b, f, mode, fd) => Redir(TextOf(s, b), s[f.q..f.eq], mode, fd)
    case Pipe(l, r) => Pipe(TextOf(s, l), TextOf(s, r))
    case List(l, r) => List(TextOf(s, l), TextOf(s, r))
    case Back(b) => Back(TextOf(s, b))
  }

  predicate PlacedRs(s: string, rs: seq<Redirection<Tok>>) { forall k :: 0 <= k < |rs| ==> IsWord(s, rs[k].file) }

  function TextRs(s: string, rs: seq<Redirection<Tok>>): (ws: seq<Redirection<string>>)
    requires PlacedRs(s, rs)
    ensures |ws| == |rs|
  {
    if rs == [] then [] else
      var r := rs[|rs| - 1];
      TextRs(s, rs[..|rs| - 1]) + [To(s[r.file.q..r.file.eq], r.mode, r.fd)]
  }

  lemma {:induction false} TextRsFirst(s: string, rs: seq<Redirection<Tok>>)
    requires PlacedRs(s, rs) && rs != []
    ensures TextRs(s, rs) == [To(s[rs[0].file.q..rs[0].file.eq], rs[0].mode, rs[0].fd)] + TextRs(s, rs[1..])
    decreases |rs|
  {
    if |rs| > 1 {
      var front := rs[..|rs| - 1];
      TextRsFirst(s, front);
      assert front[1..] == rs[1..][..|rs| - 2];
    }
  }

  lemma {:induction false} TextOfWrap(s: string, c: Cmd<Tok>, rs: seq<Redirection<Tok>>)
    requires Placed(s, c) && PlacedRs(s, rs)
    ensures Placed(s, Wrap(c, rs)) && TextOf(s, Wrap(c, rs)) == Wrap(TextOf(s, c), TextRs(s, rs))
    decreases |rs|
  {
    if rs != [] {
      TextRsFirst(s, rs);
      assert TextRs(s, rs)[1..] == TextRs(s, rs[1..]);
      TextOfWrap(s, Redir(c, rs[0].file, rs[0].mode, rs[0].fd), rs[1..]);
    }
  }

  /** What gettoken returns for a token. */
  function Code(t: Token): (c: char)
  {
    match t
    case Word(_) => 'a'
    case Sym(c) => c
    case Append => '+'
  }

  /** The character peek looks at. */
  function Head(ts: seq<Token>): (c: char)
    requires ts != [] && Proper(ts[0])
  {
    match ts[0]
    case Word(w) => w[0]
    case Sym(c) => c
    case Append => '>'
  }

  /** The parser p, having moved the cursor to at, agrees with the grammar's result r. */
  ghost predicate Agrees(s: string, p: Parsed, at: nat, r: Result<Cmd<string>>) {
    && at <= |s|
    && (r.Err? ==> p == Fail(r.error))
    && (r.Ok? ==> p.Done? && Placed(s, p.cmd) && TextOf(s, p.cmd) == r.value && Tokens(s, at) == r.rest)
  }

  class Parser {
    const s: string
    var ps: nat

    constructor (line: string)
      ensures s == line && ps == 0
    {
      s, ps := line, 0;
    }

    method Skip(from: nat) returns (i: nat)
      requires from <= |s|
      ensures i == SkipSpace(s, from)
    {
      i := from;
      while i < |s| && Space(s[i])
        invariant from <= i <= |s| && SkipSpace(s, i) == SkipSpace(s, from)
      {
        i := i + 1;
      }
    }

    method Gettoken() returns (tok: char, q: nat, eq: nat)
      requires ps <= |s|
      modifies this
      ensures ps <= |s|
      ensures Tokens(s, old(ps)) == [] ==> tok == NUL && Tokens(s, ps) == []
      ensures Tokens(s, old(ps)) != [] ==>
        tok == Code(Tokens(s, old(ps))[0]) && Tokens(s, ps) == Tokens(s, old(ps))[1..]
      ensures Tokens(s, old(ps)) != [] && Tokens(s, old(ps))[0].Word? ==>
        IsWord(s, Tok(q, eq)) && s[q..eq] == Tokens(s, old(ps))[0].text
    {
      q := Skip(ps);
      var i := q;
      tok := NUL;
      if i < |s| {
        tok := s[i];
        if s[i] == '|' || s[i] == '(' || s[i] == ')' || s[i] == ';' || s[i] == '&' || s[i] == '<' {
          i := i + 1;
        } else if s[i] == '>' {
          i := i + 1;
          if i < |s| && s[i] == '>' {
            tok := '+';
            i := i + 1;
          }
        } else {
          tok := 'a';
          while i < |s| && !Space(s[i]) && !Symbol(s[i])
            invariant q <= i <= |s| && WordEnd(s, i) == WordEnd(s, q)
          {
            i := i + 1;
          }
        }
      }
      eq := i;
      assert q < |s| ==> eq == TokenEnd(s, q);
      TokensSkip(s, eq);
      ps := Skip(eq);
    }

    /** Whether the next character that is not a blank is one of toks. */
    method Peek(toks: string) returns (b: bool)
      requires ps <= |s|
      modifies this
      ensures ps <= |s| && Tokens(s, ps) == Tokens(s, old(ps))
      ensures forall k :: 0 <= k < |Tokens(s, ps)| ==> Proper(Tokens(s, ps)[k])
      ensures b <==> Tokens(s, ps) != [] && Head(Tokens(s, ps)) in toks
      ensures Tokens(s, ps) == [] <==> ps == |s|
    {
      TokensSkip(s, ps);
      ps := Skip(ps);
      TokensProper(s, ps);
      b := ps < |s| && s[ps] in toks;
      assert SkipSpace(s, ps) == ps;
    }

    /** A pass of parseredirs' loop. */
    method OneRedir(rs0: seq<Redirection<Tok>>) returns (rs: seq<Redirection<Tok>>, ok: bool)
      requires ps <= |s| && PlacedRs(s, rs0) && StartsRedir(Tokens(s, ps))
      requires forall k :: 0 <= k < |Tokens(s, ps)| ==> Proper(Tokens(s, ps)[k])
      modifies this
      ensures ps <= |s| && PlacedRs(s, rs)
      ensures !ok ==> Redirs(TextRs(s, rs0), Tokens(s, old(ps))) == Err(MissingFile)
      ensures ok ==> |Tokens(s, ps)| < |Tokens(s, old(ps))|
      ensures ok ==> Redirs(TextRs(s, rs), Tokens(s, ps)) == Redirs(TextRs(s, rs0), Tokens(s, old(ps)))
    {
      rs, ok := rs0, true;
      var tok, q, eq := Gettoken();
      var kind;
      kind, q, eq := Gettoken();
      if kind != 'a' {
        ok := false;
        return;
      }
      rs := AddRedir(rs, Tok(q, eq), tok == '<');
    }

    /** parseredirs, with the redirections collected in a list. !ok is a missing file name. */
    method Parseredirs(rs0: seq<Redirection<Tok>>) returns (rs: seq<Redirection<Tok>>, ok: bool)
      requires ps <= |s| && PlacedRs(s, rs0)
      modifies this
      ensures ps <= |s| && PlacedRs(s, rs)
      ensures var r := Redirs(TextRs(s, rs0), Tokens(s, old(ps)));
              if r.Err? then !ok else ok && TextRs(s, rs) == r.value && Tokens(s, ps) == r.rest
    {
      rs, ok := rs0, true;
      ghost var r := Redirs(TextRs(s, rs0), Tokens(s, ps));
      var more := Peek("<>");
      HeadIsRedir(Tokens(s, ps));
      while more
        invariant ps <= |s| && PlacedRs(s, rs) && ok
        invariant more <==> StartsRedir(Tokens(s, ps))
        invariant forall k :: 0 <= k < |Tokens(s, ps)| ==> Proper(Tokens(s, ps)[k])
        invariant Redirs(TextRs(s, rs), Tokens(s, ps)) == r
        decreases |Tokens(s, ps)|
      {
        rs, ok := OneRedir(rs);
        if !ok {
          return;
        }
        more := Peek("<>");
        HeadIsRedir(Tokens(s, ps));
      }
    }

    /** A pass of parseexec's loop, at a token that is neither the end nor a stop. */
    method OneWord(argv0: seq<Tok>, rs0: seq<Redirection<Tok>>)
      returns (argv: seq<Tok>, rs: seq<Redirection<Tok>>, more: bool, error: Error)
      requires ps <= |s| && AreWords(s, argv0) && PlacedRs(s, rs0) && |argv0| < MAXARGS && !Stops(Tokens(s, ps))
      requires forall k :: 0 <= k < |Tokens(s, ps)| ==> Proper(Tokens(s, ps)[k])
      requires Tokens(s, ps) != []
      modifies this
      ensures ps <= |s| && AreWords(s, argv) && PlacedRs(s, rs)
      ensures !more ==> Args(Texts(s, argv0), TextRs(s, rs0), Tokens(s, old(ps))) == Err(error)
      ensures more ==> |argv| < MAXARGS && |Tokens(s, ps)| < |Tokens(s, old(ps))|
      ensures more ==> Args(Texts(s, argv), TextRs(s, rs), Tokens(s, ps)) == Args(Texts(s, argv0), TextRs(s, rs0), Tokens(s, old(ps)))
    {
      argv, rs, more, error := argv0, rs0, false, Syntax;
      var tok, q, eq := Gettoken();
      if tok != 'a' {
        return;
      }
      argv := argv0 + [Tok(q, eq)];
      assert argv[..|argv| - 1] == argv0;
      if |argv| >= MAXARGS {
        error := TooManyArgs;
        return;
      }
      rs, more := Parseredirs(rs);
      error := MissingFile;
    }

    method Parseexec() returns (p: Parsed)
      requires ps <= |s|
      modifies this
      ensures Agrees(s, p, ps, ParseExec(Tokens(s, old(ps))))
      decreases |Tokens(s, ps)|, 1
    {
      ghost var ts := Tokens(s, ps);
      var block := Peek("(");
      HeadIs(ts, '(');
      if block {
        p := Parseblock();
        return;
      }
      var rs, ok := Parseredirs([]);
      if !ok {
        return Fail(MissingFile);
      }
      p := Parseargs(rs);
    }

    /** parseexec's loop. */
    method Parseargs(rs0: seq<Redirection<Tok>>) returns (p: Parsed)
      requires ps <= |s| && PlacedRs(s, rs0)
      modifies this
      ensures Agrees(s, p, ps, Args([], TextRs(s, rs0), Tokens(s, old(ps))))
    {
      var argv, rs := [], rs0;
      ghost var r := Args([], TextRs(s, rs0), Tokens(s, ps));
      assert Texts(s, argv) == [];
      var stop := Peek("|)&;");
      HeadStops(Tokens(s, ps));
      while !stop && ps < |s|
        invariant ps <= |s| && AreWords(s, argv) && PlacedRs(s, rs) && |argv| < MAXARGS
        invariant stop <==> Stops(Tokens(s, ps))
        invariant Tokens(s, ps) == [] <==> ps == |s|
        invariant forall k :: 0 <= k < |Tokens(s, ps)| ==> Proper(Tokens(s, ps)[k])
        invariant Args(Texts(s, argv), TextRs(s, rs), Tokens(s, ps)) == r
        decreases |Tokens(s, ps)|
      {
        var more, error;
        argv, rs, more, error := OneWord(argv, rs);
        if !more {
          return Fail(error);
        }
        stop := Peek("|)&;");
        HeadStops(Tokens(s, ps));
      }
      TextOfWrap(s, Exec(argv), rs);
      p := Done(Wrap(Exec(argv), rs));
    }

    method Parseblock() returns (p: Parsed)
      requires ps <= |s| && Starts(Tokens(s, ps), '(')
      modifies this
      ensures Agrees(s, p, ps, ParseExec(Tokens(s, old(ps))))
      decreases |Tokens(s, ps)|, 0
    {
      ghost var ts := Tokens(s, ps);
      var tok, q, eq := Gettoken();
      p := Parseline();
      if p.Fail? {
        return;
      }
      var close := Peek(")");
      HeadIs(Tokens(s, ps), ')');
      if !close {
        return Fail(MissingParen);
      }
      tok, q, eq := Gettoken();
      var rs, ok := Parseredirs([]);
      if !ok {
        return Fail(MissingFile);
      }
      TextOfWrap(s, p.cmd, rs);
      p := Done(Wrap(p.cmd, rs));
    }

    method Parsepipe() returns (p: Parsed)
      requires ps <= |s|
      modifies this
      ensures Agrees(s, p, ps, ParsePipe(Tokens(s, old(ps))))
      decreases |Tokens(s, ps)|, 2
    {
      p := Parseexec();
      if p.Fail? {
        return;
      }
      var bar := Peek("|");
      HeadIs(Tokens(s, ps), '|');
      if bar {
        var tok, q, eq := Gettoken();
        var r := Parsepipe();
        if r.Fail? {
          return r;
        }
        p := Done(Pipe(p.cmd, r.cmd));
      }
    }

    method Parseline() returns (p: Parsed)
      requires ps <= |s|
      modifies this
      ensures Agrees(s, p, ps, ParseLine(Tokens(s, old(ps))))
      decreases |Tokens(s, ps)|, 3
    {
      p := Parsepipe();
      if p.Fail? {
        return;
      }
      p := Parsebacks(p.cmd);
      var semi := Peek(";");
      HeadIs(Tokens(s, ps), ';');
      if semi {
        var tok, q, eq := Gettoken();
        var r := Parseline();
        if r.Fail? {
          return r;
        }
        p := Done(List(p.cmd, r.cmd));
      }
    }

    /** parseline's loop. */
    method Parsebacks(cmd0: Cmd<Tok>) returns (p: Parsed)
      requires ps <= |s| && Placed(s, cmd0)
      modifies this
      ensures Agrees(s, p, ps, Backs(TextOf(s, cmd0), Tokens(s, old(ps))))
    {
      var cmd := cmd0;
      ghost var r := Backs(TextOf(s, cmd0), Tokens(s, ps));
      var more := Peek("&");
      HeadIs(Tokens(s, ps), '&');
      while more
        invariant ps <= |s| && Placed(s, cmd)
        invariant more <==> Starts(Tokens(s, ps), '&')
        invariant Backs(TextOf(s, cmd), Tokens(s, ps)) == r
        decreases |Tokens(s, ps)|
      {
        var tok, q, eq := Gettoken();
        cmd := Back(cmd);
        more := Peek("&");
        HeadIs(Tokens(s, ps), '&');
      }
      p := Done(cmd);
    }
  }

  lemma {:induction false} HeadIs(ts: seq<Token>, c: char)
    requires forall k :: 0 <= k < |ts| ==> Proper(ts[k])
    requires Symbol(c) && c != '>'
    ensures ts != [] && Head(ts) in [c] <==> Starts(ts, c)
  {
    if ts != [] && ts[0].Word? {
      assert WordChar(ts[0].text[0]);
    }
  }

  lemma {:induction false} HeadStops(ts: seq<Token>)
    requires forall k :: 0 <= k < |ts| ==> Proper(ts[k])
    ensures ts != [] && Head(ts) in "|)&;" <==> Stops(ts)
  {
    if ts != [] && ts[0].Word? {
      assert WordChar(ts[0].text[0]);
    }
  }

  function AddRedir(rs: seq<Redirection<Tok>>, t: Tok, input: bool): (r: seq<Redirection<Tok>>) { rs + [Opened(t, input)] }

  lemma {:induction false} HeadIsRedir(ts: seq<Token>)
    requires forall k :: 0 <= k < |ts| ==> Proper(ts[k])
    ensures ts != [] && Head(ts) in "<>" <==> StartsRedir(ts)
  {
    if ts != [] && ts[0].Word? {
      assert WordChar(ts[0].text[0]);
    }
  }

  // ---- NUL termination ----

  /** The words of a tree. */
  function Toks(c: Cmd<Tok>): (ts: set<Tok>)
  {
    match c
    case Exec(argv) => set t | t in argv
    case Redir(b, f, _, _) => Toks(b) + {f}
    case Pipe(l, r) => Toks(l) + Toks(r)
    case List(l, r) => Toks(l) + Toks(r)
    case Back(b) => Toks(b)
  }

  ghost predicate EndsIn(ts: set<Tok>, i: nat) { exists t :: t in ts && t.eq == i }

  /** Exactly the characters after the words in ts have become NUL. */
  ghost predicate Cut(was: seq<char>, now: seq<char>, ts: set<Tok>) {
    |was| == |now| && forall i: nat :: i < |was| ==> now[i] == if EndsIn(ts, i) then NUL else was[i]
  }

  lemma CutTwice(a: seq<char>, b: seq<char>, c: seq<char>, ts: set<Tok>, us: set<Tok>)
    requires Cut(a, b, ts) && Cut(b, c, us)
    ensures Cut(a, c, ts + us)
  {
    forall i: nat | i < |a|
      ensures EndsIn(ts + us, i) <==> EndsIn(ts, i) || EndsIn(us, i)
    {
      if EndsIn(ts, i) {
        var t :| t in ts && t.eq == i;
        assert t in ts + us;
      }
      if EndsIn(us, i) {
        var t :| t in us && t.eq == i;
        assert t in ts + us;
      }
    }
  }

  lemma CutOne(a: seq<char>, t: Tok)
    requires t.eq < |a|
    ensures Cut(a, a[t.eq := NUL], {t})
  {
    forall i: nat | i < |a|
      ensures EndsIn({t}, i) <==> i == t.eq
    {
      assert t in {t};
    }
  }

  method Nulterminate(buf: array<char>, c: Cmd<Tok>)
    requires forall t :: t in Toks(c) ==> t.eq < buf.Length
    modifies buf
    ensures Cut(old(buf[..]), buf[..], Toks(c))
    decreases c
  {
    ghost var a := buf[..];
    match c {
      case Exec(argv) =>
        NulWords(buf, argv);
      case Redir(b, f, _, _) =>
        Nulterminate(buf, b);
        ghost var m := buf[..];
        CutOne(m, f);
        buf[f.eq] := NUL;
        assert buf[..] == m[f.eq := NUL];
        CutTwice(a, m, buf[..], Toks(b), {f});
      case Pipe(l, r) =>
        Nulterminate(buf, l);
        ghost var m := buf[..];
        Nulterminate(buf, r);
        CutTwice(a, m, buf[..], Toks(l), Toks(r));
      case List(l, r) =>
        Nulterminate(buf, l);
        ghost var m := buf[..];
        Nulterminate(buf, r);
        CutTwice(a, m, buf[..], Toks(l), Toks(r));
      case Back(b) =>
        Nulterminate(buf, b);
    }
  }

  method NulWords(buf: array<char>, argv: seq<Tok>)
    requires forall t :: t in argv ==> t.eq < buf.Length
    modifies buf
    ensures Cut(old(buf[..]), buf[..], set t | t in argv)
  {
    ghost var a := buf[..];
    var i := 0;
    ghost var done: set<Tok> := {};
    while i < |argv|
      invariant i <= |argv| && done == (set t | t in argv[..i]) && Cut(a, buf[..], done)
    {
      ghost var m := buf[..];
      CutOne(m, argv[i]);
      buf[argv[i].eq] := NUL;
      assert buf[..] == m[argv[i].eq := NUL];
      CutTwice(a, m, buf[..], done, {argv[i]});
      done := done + {argv[i]};
      assert argv[..i + 1] == argv[..i] + [argv[i]];
      i := i + 1;
    }
    assert argv[..i] == argv;
  }

  /** The C string that starts at q. */
  function CString(a: seq<char>, q: nat): (w: string)
    decreases |a| - q
  {
    if q >= |a| || a[q] == NUL then "" else [a[q]] + CString(a, q + 1)
  }

  lemma {:induction false} CStringIs(a: seq<char>, q: nat, e: nat)
    requires q <= e < |a| && a[e] == NUL && forall k: nat :: q <= k < e ==> a[k] != NUL
    ensures CString(a, q) == a[q..e]
    decreases e - q
  {
    if q < e {
      CStringIs(a, q + 1, e);
      assert a[q..e] == [a[q]] + a[q + 1..e];
    }
  }

  lemma {:induction false} PlacedToks(s: string, c: Cmd<Tok>, t: Tok)
    requires Placed(s, c) && t in Toks(c)
    ensures IsWord(s, t)
  {
    match c
    case Exec(argv) =>
    case Redir(b, f, _, _) =>
      if t != f {
        PlacedToks(s, b, t);
      }
    case Pipe(l, r) =>
      if t in Toks(l) {
        PlacedToks(s, l, t);
      } else {
        PlacedToks(s, r, t);
      }
    case List(l, r) =>
      if t in Toks(l) {
        PlacedToks(s, l, t);
      } else {
        PlacedToks(s, r, t);
      }
    case Back(b) =>
      PlacedToks(s, b, t);
  }

  /** Once the line is cut, every word of the tree is a C string with exactly its own text: the NUL
      behind one word never falls inside another. */
  lemma {:induction false} WordsStand(s: string, was: seq<char>, now: seq<char>, c: Cmd<Tok>, t: Tok)
    requires Placed(s, c) && t in Toks(c) && |s| < |was| && was[..|s|] == s && NUL !in s
    requires Cut(was, now, Toks(c))
    ensures IsWord(s, t) && CString(now, t.q) == s[t.q..t.eq]
  {
    PlacedToks(s, c, t);
    assert EndsIn(Toks(c), t.eq);
    forall k: nat | t.q <= k < t.eq
      ensures now[k] == s[k] && now[k] != NUL
    {
      if EndsIn(Toks(c), k) {
        var u :| u in Toks(c) && u.eq == k;
        PlacedToks(s, c, u);
      }
      assert was[k] == was[..|s|][k] == s[k];
      assert s[k] in s;
    }
    CStringIs(now, t.q, t.eq);
    assert now[t.q..t.eq] == s[t.q..t.eq];
  }

  /** parsecmd: the line's one tree in the grammar, or the error when it has none, with nothing in the
      line changed but the characters after the words. */
  method Parsecmd(buf: array<char>, n: nat) returns (p: Parsed)
    requires n < buf.Length && buf[n] == NUL && NUL !in buf[..n]
    modifies buf
    ensures var s := old(buf[..n]);
            var r := ParseCmd(Tokens(s, 0));
            && (r.Err? ==> p == Fail(r.error) && buf[..] == old(buf[..]))
            && (r.Ok? ==> p.Done? && Placed(s, p.cmd) && TextOf(s, p.cmd) == r.value)
            && (r.Ok? ==> Cut(old(buf[..]), buf[..], Toks(p.cmd)))
            && (r.Ok? ==> forall t :: t in Toks(p.cmd) ==> IsWord(s, t) && CString(buf[..], t.q) == s[t.q..t.eq])
    ensures var s := old(buf[..n]);
            && (p.Done? <==> exists c :: IsLine(c, Tokens(s, 0)))
            && (p.Done? ==> Placed(s, p.cmd) && IsLine(TextOf(s, p.cmd), Tokens(s, 0)))
  {
    var s := buf[..n];
    OneTree(Tokens(s, 0));
    var parser := new Parser(s);
    p := parser.Parseline();
    if p.Fail? {
      return;
    }
    var b := parser.Peek("");
    if parser.ps != n {
      return Fail(Leftovers);
    }
    ghost var was := buf[..];
    assert was[..n] == s;
    forall t | t in Toks(p.cmd)
      ensures t.eq < buf.Length
    {
      PlacedToks(s, p.cmd, t);
    }
    Nulterminate(buf, p.cmd);
    forall t | t in Toks(p.cmd)
      ensures IsWord(s, t) && CString(buf[..], t.q) == s[t.q..t.eq]
    {
      WordsStand(s, was, buf[..], p.cmd, t);
    }
  }

  /** Writing a command tree as a line and running the parser over it gives the tree back. */
  lemma {:induction false} ParseWhatWasPrinted(c: Cmd<string>, p: Parsed, at: nat)
    requires Fits(c) && ProperCmd(c)
    requires var s := Render(PrintLine(c)); Agrees(s, p, at, ParseLine(Tokens(s, 0)))
    ensures var s := Render(PrintLine(c)); p.Done? && Placed(s, p.cmd) && TextOf(s, p.cmd) == c && Tokens(s, at) == []
  {
    LineRoundTrip(c);
  }
}
