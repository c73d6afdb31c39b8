/** The command language of sh.c over tokens: what the recursive-descent parser accepts, and a
    printer that is its inverse on every command tree. */
module ShellGrammar {

  const MAXARGS: nat := 10

  /** '>>' is the token Append. */
  datatype Token = Word(text: string) | Sym(c: char) | Append

  const O_RDONLY: nat := 0
  const O_WRONLY_CREATE: nat := 0x201

  /** Words are strings here and places in the input line in the parser. A redirection opens its
      file with mode and gives it descriptor fd. */
  datatype Cmd<T> =
    | Exec(argv: seq<T>)
    | Redir(cmd: Cmd<T>, file: T, mode: nat, fd: nat)
    | Pipe(left: Cmd<T>, right: Cmd<T>)
    | List(left: Cmd<T>, right: Cmd<T>)
    | Back(cmd: Cmd<T>)

  datatype Error = MissingFile | Syntax | TooManyArgs | MissingParen | Leftovers

  datatype Result<T> = Ok(value: T, rest: seq<Token>) | Err(error: Error)

  datatype Redirection<T> = To(file: T, mode: nat, fd: nat)

  /** What parseredirs makes of its operator: '<', '>' or '>>'. */
  function Opened<T>(file: T, input: bool): (r: Redirection<T>) {
    if input then To(file, O_RDONLY, 0) else To(file, O_WRONLY_CREATE, 1)
  }

  predicate Usual<T(==)>(r: Redirection<T>) { r == Opened(r.file, true) || r == Opened(r.file, false) }

  predicate Starts(ts: seq<Token>, c: char) { ts != [] && ts[0] == Sym(c) }

  predicate StartsRedir(ts: seq<Token>) { Starts(ts, '<') || Starts(ts, '>') || (ts != [] && ts[0] == Append) }

  /** A command's words and redirections end here. */
  predicate Stops(ts: seq<Token>) { Starts(ts, '|') || Starts(ts, ')') || Starts(ts, '&') || Starts(ts, ';') }

  /** The tree for cmd with redirections rs, first one innermost. */
  function Wrap<T>(cmd: Cmd<T>, rs: seq<Redirection<T>>): (c: Cmd<T>)
    decreases |rs|
  {
    if rs == [] then cmd else Wrap(Redir(cmd, rs[0].file, rs[0].mode, rs[0].fd), rs[1..])
  }

  // ---- the parser ----

  function Redirs(rs: seq<Redirection<string>>, ts: seq<Token>): (r: Result<seq<Redirection<string>>>)
    ensures r.Ok? ==> |r.rest| <= |ts|
    ensures r.Err? ==> r.error == MissingFile
    decreases |ts|
  {
    if !StartsRedir(ts) then Ok(rs, ts)
    else if |ts| < 2 || !ts[1].Word? then Err(MissingFile)
    else Redirs(rs + [Opened(ts[1].text, ts[0] == Sym('<'))], ts[2..])
  }

  function Args(argv: seq<string>, rs: seq<Redirection<string>>, ts: seq<Token>): (r: Result<Cmd<string>>)
    ensures r.Ok? ==> |r.rest| <= |ts|
    decreases |ts|
  {
    if Stops(ts) || ts == [] then Ok(Wrap(Exec(argv), rs), ts)
    else if !ts[0].Word? then Err(Syntax)
    else if |argv| + 1 >= MAXARGS then Err(TooManyArgs)
    else
      var r := Redirs(rs, ts[1..]);
      if r.Err? then Err(r.error) else Args(argv + [ts[0].text], r.value, r.rest)
  }

  function ParseExec(ts: seq<Token>): (r: Result<Cmd<string>>)
    ensures r.Ok? ==> |r.rest| <= |ts|
    decreases |ts|, 0
  {
    if Starts(ts, '(') then
      var l := ParseLine(ts[1..]);
      if l.Err? then l
      else if !Starts(l.rest, ')') then Err(MissingParen)
      else
        var r := Redirs([], l.rest[1..]);
        if r.Err? then Err(r.error) else Ok(Wrap(l.value, r.value), r.rest)
    else
      var r := Redirs([], ts);
      if r.Err? then Err(r.error) else Args([], r.value, r.rest)
  }

  function ParsePipe(ts: seq<Token>): (r: Result<Cmd<string>>)
    ensures r.Ok? ==> |r.rest| <= |ts|
    decreases |ts|, 1
  {
    var e := ParseExec(ts);
    if e.Ok? && Starts(e.rest, '|') then
      var p := ParsePipe(e.rest[1..]);
      if p.Err? then p else Ok(Pipe(e.value, p.value), p.rest)
    else e
  }

  function Backs(cmd: Cmd<string>, ts: seq<Token>): (r: Result<Cmd<string>>)
    ensures r.Ok? && |r.rest| <= |ts|
    decreases |ts|
  {
    if Starts(ts, '&') then Backs(Back(cmd), ts[1..]) else Ok(cmd, ts)
  }

  function ParseLine(ts: seq<Token>): (r: Result<Cmd<string>>)
    ensures r.Ok? ==> |r.rest| <= |ts|
    decreases |ts|, 2
  {
    var p := ParsePipe(ts);
    if p.Err? then p
    else
      var b := Backs(p.value, p.rest);
      if Starts(b.rest, ';') then
        var l := ParseLine(b.rest[1..]);
        if l.Err? then l else Ok(List(b.value, l.value), l.rest)
      else b
  }

  function ParseCmd(ts: seq<Token>): (r: Result<Cmd<string>>)
  {
    var l := ParseLine(ts);
    if l.Ok? && l.rest != [] then Err(Leftovers) else l
  }

  // ---- the printer ----

  function Words(argv: seq<string>): (ts: seq<Token>)
    ensures |ts| == |argv|
  {
    if argv == [] then [] else [Word(argv[0])] + Words(argv[1..])
  }

  function RedirTokens(rs: seq<Redirection<string>>): (ts: seq<Token>)
  {
    if rs == [] then [] else [Sym(if rs[0].fd == 0 then '<' else '>'), Word(rs[0].file)] + RedirTokens(rs[1..])
  }

  /** The command under the redirections, and the redirections. */
  function Core<T>(c: Cmd<T>): (b: Cmd<T>)
    ensures !b.Redir?
    ensures b == c || b < c
  {
    if c.Redir? then Core(c.cmd) else c
  }

  function Outer<T>(c: Cmd<T>): (rs: seq<Redirection<T>>)
  {
    if c.Redir? then Outer(c.cmd) + [To(c.file, c.mode, c.fd)] else []
  }

  /** Parentheses stand around whatever is not a plain command. */
  function PrintExec(c: Cmd<string>): (ts: seq<Token>)
    decreases c, 1
  {
    var b := Core(c);
    (if b.Exec? then Words(b.argv) else [Sym('(')] + PrintInner(b) + [Sym(')')]) + RedirTokens(Outer(c))
  }

  function PrintInner(c: Cmd<string>): (ts: seq<Token>)
    requires !c.Redir? && !c.Exec?
    decreases c, 0
  {
    match c
    case Pipe(l, r) => PrintExec(l) + [Sym('|')] + PrintPipe(r)
    case List(l, r) => PrintBack(l) + [Sym(';')] + PrintLine(r)
    case Back(b) => PrintBack(b) + [Sym('&')]
  }

  function PrintPipe(c: Cmd<string>): (ts: seq<Token>)
    decreases c, 2
  {
    if c.Pipe? then PrintInner(c) else PrintExec(c)
  }

  function PrintBack(c: Cmd<string>): (ts: seq<Token>)
    decreases c, 3
  {
    if c.Back? then PrintInner(c) else PrintPipe(c)
  }

  function PrintLine(c: Cmd<string>): (ts: seq<Token>)
    decreases c, 4
  {
    if c.List? then PrintInner(c) else PrintBack(c)
  }

  // ---- printing and parsing back ----

  /** At most nine words per command, which leaves the tenth place for the null pointer. */
  predicate Fits(c: Cmd<string>) {
    match c
    case Exec(argv) => |argv| < MAXARGS
    case Redir(b, f, mode, fd) => Usual(To(f, mode, fd)) && Fits(b)
    case Pipe(l, r) => Fits(l) && Fits(r)
    case List(l, r) => Fits(l) && Fits(r)
    case Back(b) => Fits(b)
  }

  predicate Ends(ts: seq<Token>) { ts == [] || Stops(ts) }

  predicate AllUsual(rs: seq<Redirection<string>>) { forall i :: 0 <= i < |rs| ==> Usual(rs[i]) }

  lemma {:induction false} EndsAreNoRedirs(ts: seq<Token>)
    requires Ends(ts)
    ensures !StartsRedir(ts) && !Starts(ts, '(')
  {
  }

  lemma {:induction false} RedirsTrip(rs0: seq<Redirection<string>>, rs: seq<Redirection<string>>, rest: seq<Token>)
    requires AllUsual(rs) && !StartsRedir(rest)
    ensures Redirs(rs0, RedirTokens(rs) + rest) == Ok(rs0 + rs, rest)
    decreases |rs|
  {
    if rs == [] {
      assert RedirTokens(rs) + rest == rest && rs0 + rs == rs0;
    } else {
      var head := Sym(if rs[0].fd == 0 then '<' else '>');
      assert RedirTokens(rs) + rest == [head, Word(rs[0].file)] + (RedirTokens(rs[1..]) + rest);
      RedirsStep(rs0, rs[0], RedirTokens(rs[1..]) + rest);
      assert rs0 + rs == rs0 + [rs[0]] + rs[1..];
      RedirsTrip(rs0 + [rs[0]], rs[1..], rest);
    }
  }

  lemma {:induction false} RedirsStep(rs: seq<Redirection<string>>, r: Redirection<string>, ts: seq<Token>)
    requires Usual(r)
    ensures Redirs(rs, [Sym(if r.fd == 0 then '<' else '>'), Word(r.file)] + ts) == Redirs(rs + [r], ts)
  {
    assert ([Sym(if r.fd == 0 then '<' else '>'), Word(r.file)] + ts)[2..] == ts;
  }

  lemma {:induction false} ArgsTrip(argv0: seq<string>, argv: seq<string>, rs: seq<Redirection<string>>, rest: seq<Token>)
    requires |argv0| + |argv| < MAXARGS && AllUsual(rs) && Ends(rest) && argv != []
    ensures Args(argv0, [], Words(argv) + RedirTokens(rs) + rest) == Ok(Wrap(Exec(argv0 + argv), rs), rest)
    decreases |argv|
  {
    var w, tail := argv[0], argv[1..];
    var tl := Words(tail) + RedirTokens(rs) + rest;
    assert Words(argv) + RedirTokens(rs) + rest == [Word(w)] + tl by {
      WordsCons(argv, RedirTokens(rs), rest);
    }
    ArgsWord(argv0, w, tl);
    assert argv0 + argv == argv0 + [w] + tail;
    if tail == [] {
      assert tl == RedirTokens(rs) + rest && argv == [w];
      LastArg(argv0 + [w], rs, rest);
    } else {
      assert tl[0] == Word(tail[0]);
      RedirsNone([], tl);
      ArgsTrip(argv0 + [w], tail, rs, rest);
    }
  }

  /** After the last word come the redirections. */
  lemma {:induction false} LastArg(argv: seq<string>, rs: seq<Redirection<string>>, rest: seq<Token>)
    requires AllUsual(rs) && Ends(rest)
    ensures Redirs([], RedirTokens(rs) + rest) == Ok(rs, rest) && Args(argv, rs, rest) == Ok(Wrap(Exec(argv), rs), rest)
  {
    EndsAreNoRedirs(rest);
    RedirsTrip([], rs, rest);
    assert [] + rs == rs;
    ArgsEnd(argv, rs, rest);
  }

  lemma {:induction false} WordsCons(argv: seq<string>, redirs: seq<Token>, rest: seq<Token>)
    requires argv != []
    ensures Words(argv) + redirs + rest == [Word(argv[0])] + (Words(argv[1..]) + redirs + rest)
  {
  }

  lemma {:induction false} ArgsEnd(argv: seq<string>, rs: seq<Redirection<string>>, rest: seq<Token>)
    requires Ends(rest)
    ensures Args(argv, rs, rest) == Ok(Wrap(Exec(argv), rs), rest)
  {
  }

  lemma {:induction false} RedirsNone(rs: seq<Redirection<string>>, ts: seq<Token>)
    requires !StartsRedir(ts)
    ensures Redirs(rs, ts) == Ok(rs, ts)
  {
  }

  lemma {:induction false} ArgsWord(argv: seq<string>, w: string, ts: seq<Token>)
    requires |argv| + 1 < MAXARGS
    ensures Args(argv, [], [Word(w)] + ts) ==
            var r := Redirs([], ts); if r.Err? then Err(r.error) else Args(argv + [w], r.value, r.rest)
  {
    assert ([Word(w)] + ts)[1..] == ts;
  }

  lemma {:induction false} CoreFits(c: Cmd<string>)
    requires Fits(c)
    ensures Fits(Core(c)) && AllUsual(Outer(c)) && Wrap(Core(c), Outer(c)) == c
  {
    if c.Redir? {
      CoreFits(c.cmd);
      WrapLast(Core(c), Outer(c.cmd), To(c.file, c.mode, c.fd));
    }
  }

  lemma {:induction false} WrapLast(b: Cmd<string>, rs: seq<Redirection<string>>, r: Redirection<string>)
    ensures Wrap(b, rs + [r]) == Redir(Wrap(b, rs), r.file, r.mode, r.fd)
    decreases |rs|
  {
    if rs != [] {
      assert (rs + [r])[1..] == rs[1..] + [r];
      WrapLast(Redir(b, rs[0].file, rs[0].mode, rs[0].fd), rs[1..], r);
    }
  }

  lemma {:induction false} ExecTrip(c: Cmd<string>, rest: seq<Token>)
    requires Fits(c) && Ends(rest)
    ensures ParseExec(PrintExec(c) + rest) == Ok(c, rest)
    decreases c, 1
  {
    var b, rs := Core(c), Outer(c);
    CoreFits(c);
    if b.Exec? {
      PlainTrip(b.argv, rs, rest);
      assert PrintExec(c) == Words(b.argv) + RedirTokens(rs);
    } else {
      InnerTrip(b, [Sym(')')] + (RedirTokens(rs) + rest));
      BlockTrip(PrintInner(b), b, rs, rest);
      Regroup(PrintInner(b), RedirTokens(rs), rest);
    }
  }

  lemma {:induction false} Regroup(inner: seq<Token>, redirs: seq<Token>, rest: seq<Token>)
    ensures [Sym('(')] + inner + [Sym(')')] + redirs + rest == [Sym('(')] + (inner + ([Sym(')')] + (redirs + rest)))
  {
  }

  lemma {:induction false} PlainTrip(argv: seq<string>, rs: seq<Redirection<string>>, rest: seq<Token>)
    requires |argv| < MAXARGS && AllUsual(rs) && Ends(rest)
    ensures ParseExec(Words(argv) + RedirTokens(rs) + rest) == Ok(Wrap(Exec(argv), rs), rest)
  {
    if argv == [] {
      assert Words(argv) + RedirTokens(rs) + rest == RedirTokens(rs) + rest;
      EndsAreNoRedirs(rest);
      RedirHead(rs, rest);
      ParsePlain(RedirTokens(rs) + rest);
      RedirsTrip([], rs, rest);
      assert [] + rs == rs;
    } else {
      ParseWords(Words(argv) + RedirTokens(rs) + rest);
      ArgsTrip([], argv, rs, rest);
      assert [] + argv == argv;
    }
  }

  lemma {:induction false} ParseWords(ts: seq<Token>)
    requires ts != [] && ts[0].Word?
    ensures ParseExec(ts) == Args([], [], ts)
  {
    ParsePlain(ts);
  }

  lemma {:induction false} RedirHead(rs: seq<Redirection<string>>, rest: seq<Token>)
    requires Ends(rest)
    ensures !Starts(RedirTokens(rs) + rest, '(')
  {
    if rs == [] {
      assert RedirTokens(rs) + rest == rest;
    } else {
      assert (RedirTokens(rs) + rest)[0] == Sym(if rs[0].fd == 0 then '<' else '>');
    }
  }

  lemma {:induction false} ParsePlain(ts: seq<Token>)
    requires !Starts(ts, '(')
    ensures ParseExec(ts) == var r := Redirs([], ts); if r.Err? then Err(r.error) else Args([], r.value, r.rest)
  {
  }

  lemma {:induction false} BlockTrip(inner: seq<Token>, b: Cmd<string>, rs: seq<Redirection<string>>, rest: seq<Token>)
    requires AllUsual(rs) && Ends(rest)
    requires ParseLine(inner + ([Sym(')')] + (RedirTokens(rs) + rest))) == Ok(b, [Sym(')')] + (RedirTokens(rs) + rest))
    ensures ParseExec([Sym('(')] + (inner + ([Sym(')')] + (RedirTokens(rs) + rest)))) == Ok(Wrap(b, rs), rest)
  {
    var after := [Sym(')')] + (RedirTokens(rs) + rest);
    assert ([Sym('(')] + (inner + after))[1..] == inner + after;
    assert after[1..] == RedirTokens(rs) + rest;
    EndsAreNoRedirs(rest);
    RedirsTrip([], rs, rest);
    assert [] + rs == rs;
  }

  lemma {:induction false} InnerTrip(c: Cmd<string>, rest: seq<Token>)
    requires Fits(c) && !c.Redir? && !c.Exec? && (rest == [] || Starts(rest, ')'))
    ensures ParseLine(PrintInner(c) + rest) == Ok(c, rest)
    ensures c.Pipe? ==> ParsePipe(PrintInner(c) + rest) == Ok(c, rest)
    decreases c, 0
  {
    match c
    case Pipe(l, r) =>
      PipedTrip(l, r, rest);
    case List(l, r) =>
      Shift(PrintBack(l), Sym(';'), PrintLine(r), rest);
      BackTrip(l, [Sym(';')] + (PrintLine(r) + rest));
      LineTrip(r, rest);
    case Back(b) =>
      var after := [Sym('&')] + rest;
      assert PrintInner(c) + rest == PrintBack(b) + after;
      BackTrip(b, after);
      assert after[1..] == rest;
  }

  lemma {:induction false} PipedTrip(l: Cmd<string>, r: Cmd<string>, rest: seq<Token>)
    requires Fits(l) && Fits(r) && Ends(rest) && !Starts(rest, '|')
    ensures ParsePipe(PrintInner(Pipe(l, r)) + rest) == Ok(Pipe(l, r), rest)
    decreases Pipe(l, r), 0, 0
  {
    Shift(PrintExec(l), Sym('|'), PrintPipe(r), rest);
    ExecTrip(l, [Sym('|')] + (PrintPipe(r) + rest));
    PipeTrip(r, rest);
  }

  lemma Shift(a: seq<Token>, x: Token, b: seq<Token>, rest: seq<Token>)
    ensures a + [x] + b + rest == a + ([x] + (b + rest)) && ([x] + (b + rest))[1..] == b + rest
  {
  }

  lemma {:induction false} PipeTrip(c: Cmd<string>, rest: seq<Token>)
    requires Fits(c) && Ends(rest) && !Starts(rest, '|')
    ensures ParsePipe(PrintPipe(c) + rest) == Ok(c, rest)
    decreases c, 2
  {
    if c.Pipe? {
      PipedTrip(c.left, c.right, rest);
    } else {
      ExecTrip(c, rest);
    }
  }

  /** After the pipeline under c the parser's loop over '&' arrives at c itself. */
  lemma {:induction false} BackTrip(c: Cmd<string>, rest: seq<Token>)
    requires Fits(c) && Ends(rest) && !Starts(rest, '|')
    ensures var p := ParsePipe(PrintBack(c) + rest);
            p.Ok? && Backs(p.value, p.rest) == Backs(c, rest)
    decreases c, 3
  {
    if c.Back? {
      var after := [Sym('&')] + rest;
      assert PrintBack(c) + rest == PrintBack(c.cmd) + after;
      BackTrip(c.cmd, after);
      assert after[1..] == rest;
    } else {
      PipeTrip(c, rest);
    }
  }

  lemma {:induction false} LineTrip(c: Cmd<string>, rest: seq<Token>)
    requires Fits(c) && (rest == [] || Starts(rest, ')'))
    ensures ParseLine(PrintLine(c) + rest) == Ok(c, rest)
    decreases c, 4
  {
    if c.List? {
      InnerTrip(c, rest);
    } else {
      BackTrip(c, rest);
    }
  }

  /** Printing any command tree of at most nine words per command and parsing the tokens gives the
      tree back. */
  lemma {:induction false} RoundTrip(c: Cmd<string>)
    requires Fits(c)
    ensures ParseCmd(PrintLine(c)) == Ok(c, [])
  {
    LineTrip(c, []);
    assert PrintLine(c) + [] == PrintLine(c);
  }

  // ---- '>>' ----

  /** The tokens with every '>>' turned into '>'. */
  function Plain(ts: seq<Token>): (r: seq<Token>)
    ensures |r| == |ts|
  {
    if ts == [] then [] else [if ts[0] == Append then Sym('>') else ts[0]] + Plain(ts[1..])
  }

  function PlainRest<T>(r: Result<T>): (q: Result<T>) { if r.Ok? then Ok(r.value, Plain(r.rest)) else r }

  lemma {:induction false} PlainHead(ts: seq<Token>)
    ensures StartsRedir(Plain(ts)) == StartsRedir(ts) && Stops(Plain(ts)) == Stops(ts)
    ensures forall c :: c != '>' ==> Starts(Plain(ts), c) == Starts(ts, c)
    ensures ts != [] ==> Plain(ts)[1..] == Plain(ts[1..]) && (ts[0].Word? ==> Plain(ts)[0] == ts[0])
    ensures ts != [] ==> Plain(ts)[0].Word? == ts[0].Word?
  {
  }

  lemma {:induction false} PlainRedirs(rs: seq<Redirection<string>>, ts: seq<Token>)
    ensures Redirs(rs, Plain(ts)) == PlainRest(Redirs(rs, ts))
    decreases |ts|
  {
    PlainHead(ts);
    if StartsRedir(ts) && |ts| >= 2 {
      PlainHead(ts[1..]);
      assert ts[1..][0] == ts[1] && ts[1..][1..] == ts[2..];
      assert Plain(ts)[1] == Plain(ts[1..])[0] && Plain(ts)[2..] == Plain(ts[2..]);
      PlainRedirs(rs + [Opened(if ts[1].Word? then ts[1].text else "", ts[0] == Sym('<'))], ts[2..]);
    }
  }

  lemma {:induction false} PlainArgs(argv: seq<string>, rs: seq<Redirection<string>>, ts: seq<Token>)
    ensures Args(argv, rs, Plain(ts)) == PlainRest(Args(argv, rs, ts))
    decreases |ts|
  {
    PlainHead(ts);
    if ts != [] && !Stops(ts) && ts[0].Word? {
      PlainRedirs(rs, ts[1..]);
      var r := Redirs(rs, ts[1..]);
      if r.Ok? {
        PlainArgs(argv + [ts[0].text], r.value, r.rest);
      }
    }
  }

  lemma {:induction false} PlainExec(ts: seq<Token>)
    ensures ParseExec(Plain(ts)) == PlainRest(ParseExec(ts))
    decreases |ts|, 0
  {
    PlainHead(ts);
    if Starts(ts, '(') {
      PlainLine(ts[1..]);
      var l := ParseLine(ts[1..]);
      if l.Ok? {
        PlainHead(l.rest);
        if Starts(l.rest, ')') {
          PlainRedirs([], l.rest[1..]);
        }
      }
    } else {
      PlainRedirs([], ts);
      var r := Redirs([], ts);
      if r.Ok? {
        PlainArgs([], r.value, r.rest);
      }
    }
  }

  lemma {:induction false} PlainPipe(ts: seq<Token>)
    ensures ParsePipe(Plain(ts)) == PlainRest(ParsePipe(ts))
    decreases |ts|, 1
  {
    PlainExec(ts);
    var e := ParseExec(ts);
    if e.Ok? {
      PlainHead(e.rest);
      if Starts(e.rest, '|') {
        PlainPipe(e.rest[1..]);
      }
    }
  }

  lemma {:induction false} PlainBacks(cmd: Cmd<string>, ts: seq<Token>)
    ensures Backs(cmd, Plain(ts)) == PlainRest(Backs(cmd, ts))
    decreases |ts|
  {
    PlainHead(ts);
    if Starts(ts, '&') {
      PlainBacks(Back(cmd), ts[1..]);
    }
  }

  lemma {:induction false} PlainLine(ts: seq<Token>)
    ensures ParseLine(Plain(ts)) == PlainRest(ParseLine(ts))
    decreases |ts|, 2
  {
    PlainPipe(ts);
    var p := ParsePipe(ts);
    if p.Ok? {
      PlainBacks(p.value, p.rest);
      var b := Backs(p.value, p.rest);
      PlainHead(b.rest);
      if Starts(b.rest, ';') {
        PlainLine(b.rest[1..]);
      }
    }
  }

  /** '>>' means '>': a line and the line with every '>>' turned into '>' have the same tree, open
      modes included, or the same error. */
  lemma {:induction false} AppendIsWrite(ts: seq<Token>)
    ensures ParseCmd(Plain(ts)) == ParseCmd(ts)
  {
    PlainLine(ts);
  }
}
