/** The command language of sh.c as a grammar: which token lists stand for which command trees. The
    parser accepts exactly these, with exactly these trees. */
module ShellSyntax {
  import opened ShellGrammar

  // ---- plain commands: words and redirections in any order ----

  datatype Item = Arg(text: string) | Into(op: Token, file: string)

  predicate IsOp(t: Token) { t == Sym('<') || t == Sym('>') || t == Append }

  predicate AllOps(items: seq<Item>) { forall i :: 0 <= i < |items| && items[i].Into? ==> IsOp(items[i].op) }

  function Spelt(x: Item): (ts: seq<Token>) { if x.Arg? then [Word(x.text)] else [x.op, Word(x.file)] }

  function WordOf(x: Item): (ws: seq<string>) { if x.Arg? then [x.text] else [] }

  /** '<' opens its file for reading as descriptor 0; the others create it if need be and open it for
      writing as descriptor 1. */
  function RedirOf(x: Item): (rs: seq<Redirection<string>>) {
    if x.Arg? then [] else if x.op == Sym('<') then [To(x.file, 0, 0)] else [To(x.file, 0x200 + 1, 1)]
  }

  function Flat(items: seq<Item>): (ts: seq<Token>) {
    if items == [] then [] else Spelt(items[0]) + Flat(items[1..])
  }

  /** The words of a mixture, in order. */
  function WordsIn(items: seq<Item>): (ws: seq<string>) {
    if items == [] then [] else WordOf(items[0]) + WordsIn(items[1..])
  }

  /** The redirections of a mixture, in order. */
  function RedirsIn(items: seq<Item>): (rs: seq<Redirection<string>>) {
    if items == [] then [] else RedirOf(items[0]) + RedirsIn(items[1..])
  }

  /** c is b under the redirections rs, the last one outermost. */
  predicate Under(c: Cmd<string>, b: Cmd<string>, rs: seq<Redirection<string>>)
    decreases |rs|
  {
    if rs == [] then c == b
    else c.Redir? && To(c.file, c.mode, c.fd) == rs[|rs| - 1] && Under(c.cmd, b, rs[..|rs| - 1])
  }

  // ---- the grammar ----

  predicate Mixture(c: Cmd<string>, ts: seq<Token>, items: seq<Item>) {
    && AllOps(items) && ts == Flat(items) && |WordsIn(items)| < MAXARGS
    && Under(c, Exec(WordsIn(items)), RedirsIn(items))
  }

  /** ts is a line in parentheses, closed at k, and redirections. */
  ghost predicate IsBlock(c: Cmd<string>, ts: seq<Token>, k: nat, b: Cmd<string>, items: seq<Item>)
    decreases |ts|, 0
  {
    && 0 < k < |ts| && ts[0] == Sym('(') && ts[k] == Sym(')') && IsLine(b, ts[1..k])
    && AllOps(items) && WordsIn(items) == [] && ts[k + 1..] == Flat(items) && Under(c, b, RedirsIn(items))
  }

  ghost predicate IsExec(c: Cmd<string>, ts: seq<Token>)
    decreases |ts|, 1
  {
    || (exists items :: Mixture(c, ts, items))
    || (exists k: nat, b: Cmd<string>, items: seq<Item> :: IsBlock(c, ts, k, b, items))
  }

  /** Commands joined by '|', grouped to the right. */
  ghost predicate IsPipe(c: Cmd<string>, ts: seq<Token>)
    decreases |ts|, 2
  {
    || IsExec(c, ts)
    || (c.Pipe? && exists k: nat :: k < |ts| && ts[k] == Sym('|') && IsExec(c.left, ts[..k]) && IsPipe(c.right, ts[k + 1..]))
  }

  /** A pipeline with any number of '&' after it. */
  ghost predicate IsBack(c: Cmd<string>, ts: seq<Token>)
    decreases |ts|, 3
  {
    IsPipe(c, ts) || (c.Back? && ts != [] && ts[|ts| - 1] == Sym('&') && IsBack(c.cmd, ts[..|ts| - 1]))
  }

  /** Those joined by ';', grouped to the right. */
  ghost predicate IsLine(c: Cmd<string>, ts: seq<Token>)
    decreases |ts|, 4
  {
    || IsBack(c, ts)
    || (c.List? && exists k: nat :: k < |ts| && ts[k] == Sym(';') && IsBack(c.left, ts[..k]) && IsLine(c.right, ts[k + 1..]))
  }

  // ---- mixtures and the parser ----

  lemma {:induction false} UnderIsWrap(c: Cmd<string>, b: Cmd<string>, rs: seq<Redirection<string>>)
    ensures Under(c, b, rs) <==> c == Wrap(b, rs)
    decreases |rs|
  {
    if rs != [] {
      var front, r := rs[..|rs| - 1], rs[|rs| - 1];
      assert rs == front + [r];
      WrapLast(b, front, r);
      if c.Redir? {
        UnderIsWrap(c.cmd, b, front);
      }
    }
  }

  /** parseexec from the middle of a plain command on. */
  function Rest(argv: seq<string>, rs: seq<Redirection<string>>, ts: seq<Token>): (r: Result<Cmd<string>>) {
    var r := Redirs(rs, ts);
    if r.Err? then Err(r.error) else Args(argv, r.value, r.rest)
  }

  lemma {:induction false} RestItem(argv: seq<string>, rs: seq<Redirection<string>>, x: Item, ts: seq<Token>)
    requires x.Into? ==> IsOp(x.op)
    ensures Rest(argv, rs, Spelt(x) + ts) ==
            if x.Arg? && |argv| + 1 >= MAXARGS then Err(TooManyArgs) else Rest(argv + WordOf(x), rs + RedirOf(x), ts)
  {
    if x.Arg? {
      assert (Spelt(x) + ts)[1..] == ts && rs + RedirOf(x) == rs;
    } else {
      RedirsItem(rs, x, ts);
      assert argv + WordOf(x) == argv;
    }
  }

  lemma {:induction false} RedirsItem(rs: seq<Redirection<string>>, x: Item, ts: seq<Token>)
    requires x.Into? && IsOp(x.op)
    ensures Redirs(rs, Spelt(x) + ts) == Redirs(rs + RedirOf(x), ts)
  {
    assert (Spelt(x) + ts)[2..] == ts;
  }

  /** What comes after a mixture, when the next item is not one more. */
  predicate NoItem(ts: seq<Token>) {
    ts == [] || !(ts[0].Word? || (IsOp(ts[0]) && |ts| > 1 && ts[1].Word?))
  }

  lemma {:induction false} RestEnds(argv: seq<string>, rs: seq<Redirection<string>>, ts: seq<Token>)
    requires NoItem(ts)
    ensures Rest(argv, rs, ts) ==
            if ts == [] || Stops(ts) then Ok(Wrap(Exec(argv), rs), ts)
            else if IsOp(ts[0]) then Err(MissingFile) else Err(Syntax)
  {
  }

  lemma {:induction false} RestItems(argv: seq<string>, rs: seq<Redirection<string>>, items: seq<Item>, ts: seq<Token>)
    requires AllOps(items) && |argv| + |WordsIn(items)| < MAXARGS
    ensures Rest(argv, rs, Flat(items) + ts) == Rest(argv + WordsIn(items), rs + RedirsIn(items), ts)
    decreases |items|
  {
    if items == [] {
      assert Flat(items) + ts == ts && argv + WordsIn(items) == argv && rs + RedirsIn(items) == rs;
    } else {
      var x, more := items[0], items[1..];
      assert AllOps(more);
      Joined(Spelt(x), Flat(more), ts);
      Joined(argv, WordOf(x), WordsIn(more));
      Joined(rs, RedirOf(x), RedirsIn(more));
      RestItem(argv, rs, x, Flat(more) + ts);
      RestItems(argv + WordOf(x), rs + RedirOf(x), more, ts);
    }
  }

  lemma Joined<T>(a: seq<T>, b: seq<T>, c: seq<T>)
    ensures a + b + c == a + (b + c)
  {
  }

  /** parseexec on words and redirections in any order: all the words and all the redirections, each in
      their order, if the command ends or stops there; else the error for what comes instead. */
  lemma {:induction false} MixtureParses(items: seq<Item>, ts: seq<Token>)
    requires AllOps(items) && |WordsIn(items)| < MAXARGS && !Starts(Flat(items) + ts, '(')
    ensures Ends(ts) ==>
              var r := ParseExec(Flat(items) + ts);
              r.Ok? && r.rest == ts && Under(r.value, Exec(WordsIn(items)), RedirsIn(items))
    ensures NoItem(ts) && !Ends(ts) ==> ParseExec(Flat(items) + ts) == Err(if IsOp(ts[0]) then MissingFile else Syntax)
    ensures |WordsIn(items)| == 9 && ts != [] && ts[0].Word? ==> ParseExec(Flat(items) + ts) == Err(TooManyArgs)
  {
    ParsePlain(Flat(items) + ts);
    RestItems([], [], items, ts);
    assert [] + WordsIn(items) == WordsIn(items) && [] + RedirsIn(items) == RedirsIn(items);
    if NoItem(ts) {
      RestEnds(WordsIn(items), RedirsIn(items), ts);
      UnderIsWrap(Wrap(Exec(WordsIn(items)), RedirsIn(items)), Exec(WordsIn(items)), RedirsIn(items));
    } else if |WordsIn(items)| == 9 && ts[0].Word? {
      assert ts == Spelt(Arg(ts[0].text)) + ts[1..];
      RestItem(WordsIn(items), RedirsIn(items), Arg(ts[0].text), ts[1..]);
    }
  }

  /** Every token list begins with a longest mixture that has room in argv. */
  lemma {:induction false} LongestMixture(room: nat, ts: seq<Token>) returns (items: seq<Item>, rest: seq<Token>)
    ensures AllOps(items) && ts == Flat(items) + rest && |WordsIn(items)| <= room
    ensures NoItem(rest) || (|WordsIn(items)| == room && rest[0].Word?)
    decreases |ts|
  {
    if NoItem(ts) || (room == 0 && ts[0].Word?) {
      items, rest := [], ts;
    } else {
      var x := if ts[0].Word? then Arg(ts[0].text) else Into(ts[0], ts[1].text);
      var tail := ts[|Spelt(x)|..];
      assert ts == Spelt(x) + tail;
      items, rest := LongestMixture(room - |WordOf(x)|, tail);
      Prepended(x, items);
      Joined(Spelt(x), Flat(items), rest);
      items := [x] + items;
    }
  }

  lemma {:induction false} Prepended(x: Item, items: seq<Item>)
    ensures Flat([x] + items) == Spelt(x) + Flat(items) && WordsIn([x] + items) == WordOf(x) + WordsIn(items)
    ensures RedirsIn([x] + items) == RedirOf(x) + RedirsIn(items)
    ensures AllOps(items) && (x.Into? ==> IsOp(x.op)) ==> AllOps([x] + items)
  {
    assert ([x] + items)[1..] == items;
  }

  // ---- whatever is parsed is in the grammar ----

  lemma CutAt(a: seq<Token>, x: Token, b: seq<Token>)
    ensures var all := a + [x] + b; all[|a|] == x && all[..|a|] == a && all[|a| + 1..] == b
  {
  }

  lemma {:induction false} PipeOf(l: Cmd<string>, a: seq<Token>, r: Cmd<string>, b: seq<Token>)
    requires IsExec(l, a) && IsPipe(r, b)
    ensures IsPipe(Pipe(l, r), a + [Sym('|')] + b)
  {
    CutAt(a, Sym('|'), b);
  }

  lemma {:induction false} LineOf(l: Cmd<string>, a: seq<Token>, r: Cmd<string>, b: seq<Token>)
    requires IsBack(l, a) && IsLine(r, b)
    ensures IsLine(List(l, r), a + [Sym(';')] + b)
  {
    CutAt(a, Sym(';'), b);
  }

  lemma {:induction false} BlockOf(b: Cmd<string>, inner: seq<Token>, items: seq<Item>)
    requires IsLine(b, inner) && AllOps(items) && WordsIn(items) == []
    ensures IsExec(Wrap(b, RedirsIn(items)), [Sym('(')] + inner + [Sym(')')] + Flat(items))
  {
    var c, ts, k := Wrap(b, RedirsIn(items)), [Sym('(')] + inner + [Sym(')')] + Flat(items), |inner| + 1;
    CutAt([Sym('(')] + inner, Sym(')'), Flat(items));
    assert ts[1..k] == inner;
    UnderIsWrap(c, b, RedirsIn(items));
    assert IsBlock(c, ts, k, b, items);
  }

  lemma {:induction false} ExecSound(ts: seq<Token>) returns (pre: seq<Token>)
    requires ParseExec(ts).Ok?
    ensures ts == pre + ParseExec(ts).rest && IsExec(ParseExec(ts).value, pre)
    decreases |ts|, 0
  {
    if Starts(ts, '(') {
      var l := ParseLine(ts[1..]);
      var inner := LineSound(ts[1..]);
      var items, rest := RedirsSound([], l.rest[1..]);
      assert [] + RedirsIn(items) == RedirsIn(items);
      BlockOf(l.value, inner, items);
      pre := [Sym('(')] + inner + [Sym(')')] + Flat(items);
      Reassembled(ts, inner, l.rest, Flat(items), rest);
    } else {
      pre := MixtureSound(ts);
    }
  }

  lemma Reassembled(ts: seq<Token>, inner: seq<Token>, after: seq<Token>, flat: seq<Token>, rest: seq<Token>)
    requires Starts(ts, '(') && ts[1..] == inner + after && Starts(after, ')') && after[1..] == flat + rest
    ensures ts == [Sym('(')] + inner + [Sym(')')] + flat + rest
  {
  }

  lemma {:induction false} MixtureSound(ts: seq<Token>) returns (pre: seq<Token>)
    requires ParseExec(ts).Ok? && !Starts(ts, '(')
    ensures ts == pre + ParseExec(ts).rest && IsExec(ParseExec(ts).value, pre)
  {
    var items, rest := LongestMixture(9, ts);
    MixtureParses(items, rest);
    pre := Flat(items);
    assert Mixture(ParseExec(ts).value, pre, items);
  }

  lemma {:induction false} RedirsSound(rs: seq<Redirection<string>>, ts: seq<Token>)
    returns (items: seq<Item>, rest: seq<Token>)
    requires Redirs(rs, ts).Ok?
    ensures AllOps(items) && WordsIn(items) == [] && ts == Flat(items) + rest
    ensures Redirs(rs, ts) == Ok(rs + RedirsIn(items), rest)
    decreases |ts|
  {
    if StartsRedir(ts) {
      var x := Into(ts[0], ts[1].text);
      assert ts == Spelt(x) + ts[2..];
      RedirsItem(rs, x, ts[2..]);
      items, rest := RedirsSound(rs + RedirOf(x), ts[2..]);
      Prepended(x, items);
      Joined(rs, RedirOf(x), RedirsIn(items));
      Joined(Spelt(x), Flat(items), rest);
      items := [x] + items;
    } else {
      items, rest := [], ts;
      assert rs + RedirsIn(items) == rs;
    }
  }

  lemma {:induction false} PipeSound(ts: seq<Token>) returns (pre: seq<Token>)
    requires ParsePipe(ts).Ok?
    ensures ts == pre + ParsePipe(ts).rest && IsPipe(ParsePipe(ts).value, pre)
    decreases |ts|, 1
  {
    var e := ParseExec(ts);
    pre := ExecSound(ts);
    if Starts(e.rest, '|') {
      var p := ParsePipe(e.rest[1..]);
      var right := PipeSound(e.rest[1..]);
      PipeOf(e.value, pre, p.value, right);
      Spliced(ts, pre, Sym('|'), e.rest, right, p.rest);
      pre := pre + [Sym('|')] + right;
    }
  }

  lemma Spliced(ts: seq<Token>, a: seq<Token>, x: Token, after: seq<Token>, b: seq<Token>, rest: seq<Token>)
    requires ts == a + after && after != [] && after[0] == x && after[1..] == b + rest
    ensures ts == a + [x] + b + rest
  {
  }

  lemma {:induction false} BacksSound(cmd: Cmd<string>, pre: seq<Token>, ts: seq<Token>) returns (all: seq<Token>)
    requires IsBack(cmd, pre)
    ensures pre + ts == all + Backs(cmd, ts).rest && IsBack(Backs(cmd, ts).value, all)
    decreases |ts|
  {
    if Starts(ts, '&') {
      assert (pre + [Sym('&')])[..|pre|] == pre;
      all := BacksSound(Back(cmd), pre + [Sym('&')], ts[1..]);
      assert pre + ts == pre + [Sym('&')] + ts[1..];
    } else {
      all := pre;
    }
  }

  lemma {:induction false} LineSound(ts: seq<Token>) returns (pre: seq<Token>)
    requires ParseLine(ts).Ok?
    ensures ts == pre + ParseLine(ts).rest && IsLine(ParseLine(ts).value, pre)
    decreases |ts|, 2
  {
    var p := ParsePipe(ts);
    pre := PipeSound(ts);
    pre := BacksSound(p.value, pre, p.rest);
    var b := Backs(p.value, p.rest);
    if Starts(b.rest, ';') {
      var l := ParseLine(b.rest[1..]);
      var right := LineSound(b.rest[1..]);
      LineOf(b.value, pre, l.value, right);
      Spliced(ts, pre, Sym(';'), b.rest, right, l.rest);
      pre := pre + [Sym(';')] + right;
    }
  }

  // ---- whatever is in the grammar is parsed ----

  lemma {:induction false} FlatHead(items: seq<Item>, rest: seq<Token>)
    requires AllOps(items) && Ends(rest)
    ensures !Starts(Flat(items) + rest, '(')
  {
    if items == [] {
      assert Flat(items) + rest == rest;
    }
  }

  lemma {:induction false} ExecComplete(c: Cmd<string>, ts: seq<Token>, rest: seq<Token>)
    requires IsExec(c, ts) && Ends(rest)
    ensures ParseExec(ts + rest) == Ok(c, rest)
    decreases |ts|, 1
  {
    if items :| Mixture(c, ts, items) {
      FlatHead(items, rest);
      MixtureParses(items, rest);
      UnderIsWrap(c, Exec(WordsIn(items)), RedirsIn(items));
      UnderIsWrap(ParseExec(ts + rest).value, Exec(WordsIn(items)), RedirsIn(items));
    } else {
      var k: nat, b: Cmd<string>, items: seq<Item> :| IsBlock(c, ts, k, b, items);
      BlockComplete(c, ts, k, b, items, rest);
    }
  }

  lemma {:induction false} BlockComplete(c: Cmd<string>, ts: seq<Token>, k: nat, b: Cmd<string>, items: seq<Item>,
                                         rest: seq<Token>)
    requires IsBlock(c, ts, k, b, items) && Ends(rest)
    ensures ParseExec(ts + rest) == Ok(c, rest)
    decreases |ts|, 0
  {
    var inner, after := ts[1..k], [Sym(')')] + (Flat(items) + rest);
    LineComplete(b, inner, after);
    BlockCut(ts, k, Flat(items), rest);
    RedirsComplete([], items, rest);
    assert [] + RedirsIn(items) == RedirsIn(items);
    UnderIsWrap(c, b, RedirsIn(items));
  }

  lemma BlockCut(ts: seq<Token>, k: nat, flat: seq<Token>, rest: seq<Token>)
    requires 0 < k < |ts| && ts[k] == Sym(')') && ts[k + 1..] == flat
    ensures var after := [Sym(')')] + (flat + rest);
            (ts + rest)[1..] == ts[1..k] + after && after[1..] == flat + rest && (ts + rest)[0] == ts[0]
  {
  }

  lemma SplitAt(ts: seq<Token>, k: nat, rest: seq<Token>)
    requires k < |ts|
    ensures var after := [ts[k]] + (ts[k + 1..] + rest);
            ts + rest == ts[..k] + after && after[1..] == ts[k + 1..] + rest
  {
  }

  lemma {:induction false} RedirsComplete(rs: seq<Redirection<string>>, items: seq<Item>, rest: seq<Token>)
    requires AllOps(items) && WordsIn(items) == [] && Ends(rest)
    ensures Redirs(rs, Flat(items) + rest) == Ok(rs + RedirsIn(items), rest)
    decreases |items|
  {
    if items == [] {
      assert Flat(items) + rest == rest && rs + RedirsIn(items) == rs;
    } else {
      var x, more := items[0], items[1..];
      assert x.Into? && AllOps(more);
      Joined(Spelt(x), Flat(more), rest);
      Joined(rs, RedirOf(x), RedirsIn(more));
      RedirsItem(rs, x, Flat(more) + rest);
      RedirsComplete(rs + RedirOf(x), more, rest);
    }
  }

  lemma {:induction false} PipeComplete(c: Cmd<string>, ts: seq<Token>, rest: seq<Token>)
    requires IsPipe(c, ts) && Ends(rest) && !Starts(rest, '|')
    ensures ParsePipe(ts + rest) == Ok(c, rest)
    decreases |ts|, 2
  {
    if IsExec(c, ts) {
      ExecComplete(c, ts, rest);
    } else {
      var k: nat :| k < |ts| && ts[k] == Sym('|') && IsExec(c.left, ts[..k]) && IsPipe(c.right, ts[k + 1..]);
      var after := [Sym('|')] + (ts[k + 1..] + rest);
      SplitAt(ts, k, rest);
      ExecComplete(c.left, ts[..k], after);
      PipeComplete(c.right, ts[k + 1..], rest);
      BarParses(ts + rest, c.left, c.right, ts[k + 1..] + rest, rest);
    }
  }

  lemma {:induction false} BarParses(ts: seq<Token>, l: Cmd<string>, r: Cmd<string>, after: seq<Token>, rest: seq<Token>)
    requires ParseExec(ts) == Ok(l, [Sym('|')] + after) && ParsePipe(after) == Ok(r, rest)
    ensures ParsePipe(ts) == Ok(Pipe(l, r), rest)
  {
    assert ([Sym('|')] + after)[1..] == after;
  }

  lemma {:induction false} BackComplete(c: Cmd<string>, ts: seq<Token>, rest: seq<Token>)
    requires IsBack(c, ts) && Ends(rest) && !Starts(rest, '|')
    ensures var p := ParsePipe(ts + rest);
            p.Ok? && Backs(p.value, p.rest) == Backs(c, rest)
    decreases |ts|, 3
  {
    if IsPipe(c, ts) {
      PipeComplete(c, ts, rest);
    } else {
      var front, after := ts[..|ts| - 1], [Sym('&')] + rest;
      assert ts + rest == front + after && after[1..] == rest;
      BackComplete(c.cmd, front, after);
    }
  }

  lemma {:induction false} LineComplete(c: Cmd<string>, ts: seq<Token>, rest: seq<Token>)
    requires IsLine(c, ts) && (rest == [] || Starts(rest, ')'))
    ensures ParseLine(ts + rest) == Ok(c, rest)
    decreases |ts|, 4
  {
    if IsBack(c, ts) {
      BackComplete(c, ts, rest);
    } else {
      var k: nat :| k < |ts| && ts[k] == Sym(';') && IsBack(c.left, ts[..k]) && IsLine(c.right, ts[k + 1..]);
      var after := [Sym(';')] + (ts[k + 1..] + rest);
      SplitAt(ts, k, rest);
      BackComplete(c.left, ts[..k], after);
      LineComplete(c.right, ts[k + 1..], rest);
    }
  }

  /** The parser gives a tree exactly when the line is in the language, and then the tree the grammar
      gives it. */
  lemma {:induction false} ParsesExactly(c: Cmd<string>, ts: seq<Token>)
    ensures ParseCmd(ts) == Ok(c, []) <==> IsLine(c, ts)
  {
    if IsLine(c, ts) {
      LineComplete(c, ts, []);
      assert ts + [] == ts;
    }
    if ParseCmd(ts) == Ok(c, []) {
      var pre := LineSound(ts);
      assert pre + [] == pre;
    }
  }

  /** No line has two trees, and one is refused exactly when it has none. */
  lemma {:induction false} OneTree(ts: seq<Token>)
    ensures forall c, d :: IsLine(c, ts) && IsLine(d, ts) ==> c == d
    ensures ParseCmd(ts).Err? <==> forall c :: !IsLine(c, ts)
    ensures ParseCmd(ts).Ok? ==> IsLine(ParseCmd(ts).value, ts)
  {
    forall c
      ensures ParseCmd(ts) == Ok(c, []) <==> IsLine(c, ts)
    {
      ParsesExactly(c, ts);
    }
    var r := ParseCmd(ts);
    if r.Ok? {
      assert IsLine(r.value, ts);
    }
  }

  /** A ')' too many is left over, and one too few is missed. */
  lemma {:induction false} Unbalanced(c: Cmd<string>, ts: seq<Token>, more: seq<Token>)
    requires IsLine(c, ts)
    ensures ParseCmd(ts + ([Sym(')')] + more)) == Err(Leftovers)
    ensures ParseCmd([Sym('(')] + ts) == Err(MissingParen)
  {
    LineComplete(c, ts, [Sym(')')] + more);
    LineComplete(c, ts, []);
    var open := [Sym('(')] + ts;
    assert open[1..] == ts + [];
    assert ParseExec(open) == Err(MissingParen);
    assert ParsePipe(open) == Err(MissingParen);
  }
}
