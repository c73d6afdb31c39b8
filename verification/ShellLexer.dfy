/** How sh.c cuts a line into tokens, and that a line with its tokens set apart by blanks is cut
    back into them. */
module ShellLexer {
  import opened ShellGrammar

  const NUL: char := '\U{0}'

  predicate Space(c: char) { c == ' ' || c == '\t' || c == '\r' || c == '\n' || c == '\U{B}' }

  predicate Symbol(c: char) { c == '<' || c == '|' || c == '>' || c == '&' || c == ';' || c == '(' || c == ')' }

  predicate WordChar(c: char) { !Space(c) && !Symbol(c) }

  function SkipSpace(s: string, i: nat): (j: nat)
    requires i <= |s|
    ensures i <= j <= |s| && (j < |s| ==> !Space(s[j]))
    ensures forall k :: i <= k < j ==> Space(s[k])
    decreases |s| - i
  {
    if i < |s| && Space(s[i]) then SkipSpace(s, i + 1) else i
  }

  function WordEnd(s: string, i: nat): (j: nat)
    requires i <= |s|
    ensures i <= j <= |s| && (j < |s| ==> !WordChar(s[j])) && (i < |s| && WordChar(s[i]) ==> i < j)
    ensures forall k :: i <= k < j ==> WordChar(s[k])
    decreases |s| - i
  {
    if i < |s| && WordChar(s[i]) then WordEnd(s, i + 1) else i
  }

  /** Where the token that starts at i ends. */
  function TokenEnd(s: string, i: nat): (j: nat)
    requires i < |s| && !Space(s[i])
    ensures i < j <= |s|
  {
    if s[i] == '>' && i + 1 < |s| && s[i + 1] == '>' then i + 2
    else if Symbol(s[i]) then i + 1
    else WordEnd(s, i)
  }

  function TokenAt(s: string, i: nat): (t: Token)
    requires i < |s| && !Space(s[i])
  {
    if s[i] == '>' && i + 1 < |s| && s[i + 1] == '>' then Append
    else if Symbol(s[i]) then Sym(s[i])
    else Word(s[i..WordEnd(s, i)])
  }

  function Tokens(s: string, i: nat): (ts: seq<Token>)
    requires i <= |s|
    decreases |s| - i
  {
    var j := SkipSpace(s, i);
    if j == |s| then [] else [TokenAt(s, j)] + Tokens(s, TokenEnd(s, j))
  }

  /** Blanks before a token do not matter. */
  lemma {:induction false} TokensSkip(s: string, i: nat)
    requires i <= |s|
    ensures Tokens(s, SkipSpace(s, i)) == Tokens(s, i)
  {
    var j := SkipSpace(s, i);
    assert SkipSpace(s, j) == j;
  }

  predicate Proper(t: Token) {
    match t
    case Word(w) => w != "" && forall k :: 0 <= k < |w| ==> WordChar(w[k])
    case Sym(c) => Symbol(c)
    case Append => true
  }

  /** The lexer yields only proper tokens: words are never empty and hold no blank or symbol. */
  lemma {:induction false} TokensProper(s: string, i: nat)
    requires i <= |s|
    ensures forall k :: 0 <= k < |Tokens(s, i)| ==> Proper(Tokens(s, i)[k])
    decreases |s| - i
  {
    var j := SkipSpace(s, i);
    if j < |s| {
      assert Proper(TokenAt(s, j));
      TokensProper(s, TokenEnd(s, j));
    }
  }

  // ---- writing tokens out ----

  function Spell(t: Token): (w: string)
  {
    match t
    case Word(w) => w
    case Sym(c) => [c]
    case Append => ">>"
  }

  function Render(ts: seq<Token>): (s: string)
  {
    if ts == [] then "" else Spell(ts[0]) + " " + Render(ts[1..])
  }

  /** What may follow a token directly: nothing that would make it longer. */
  predicate Closes(t: Token, post: string) {
    post == "" || if t.Word? then !WordChar(post[0]) else if t == Sym('>') then post[0] != '>' else true
  }

  /** The token t, written between pre and post, is read back. */
  lemma {:induction false} TokenRead(pre: string, t: Token, post: string)
    requires Proper(t) && Closes(t, post)
    ensures var s := pre + Spell(t) + post;
            && |pre| < |s| && !Space(s[|pre|])
            && TokenAt(s, |pre|) == t && TokenEnd(s, |pre|) == |pre + Spell(t)|
  {
    var s := pre + Spell(t) + post;
    var i, n := |pre|, |Spell(t)|;
    assert forall k :: 0 <= k < n ==> s[i + k] == Spell(t)[k];
    assert s[i..i + n] == Spell(t);
    if t.Word? {
      forall k | i <= k < i + n
        ensures WordChar(s[k])
      {
        assert s[k] == t.text[k - i];
      }
      WordEndsAt(s, i, i + n);
    }
  }

  lemma {:induction false} WordEndsAt(s: string, i: nat, j: nat)
    requires i <= j <= |s| && (j < |s| ==> !WordChar(s[j])) && forall k :: i <= k < j ==> WordChar(s[k])
    ensures WordEnd(s, i) == j
    decreases j - i
  {
    if i < j {
      WordEndsAt(s, i + 1, j);
    }
  }

  lemma {:induction false} RenderTrip(pre: string, ts: seq<Token>)
    requires forall k :: 0 <= k < |ts| ==> Proper(ts[k])
    ensures Tokens(pre + Render(ts), |pre|) == ts
    decreases |ts|
  {
    if ts == [] {
      assert pre + Render(ts) == pre;
    } else {
      var t, tail := ts[0], ts[1..];
      RenderTrip(pre + Spell(t) + " ", tail);
      OneMore(pre, t, Render(tail), tail);
      assert [t] + tail == ts;
    }
  }

  lemma {:induction false} OneMore(pre: string, t: Token, post: string, tail: seq<Token>)
    requires Proper(t) && Tokens(pre + Spell(t) + " " + post, |pre + Spell(t) + " "|) == tail
    ensures Tokens(pre + (Spell(t) + " " + post), |pre|) == [t] + tail
  {
    TokenRead(pre, t, " " + post);
    Spread(pre, Spell(t), post);
    TokensStep(pre + Spell(t) + " " + post, |pre|, |pre| + |Spell(t)|);
  }

  lemma Spread(pre: string, w: string, post: string)
    ensures pre + (w + " " + post) == pre + w + " " + post == pre + w + (" " + post)
    ensures (pre + w + " " + post)[|pre| + |w|] == ' '
  {
  }

  lemma {:induction false} TokensStep(s: string, i: nat, e: nat)
    requires i < e < |s| && !Space(s[i]) && TokenEnd(s, i) == e && Space(s[e])
    ensures Tokens(s, i) == [TokenAt(s, i)] + Tokens(s, e + 1)
  {
    assert SkipSpace(s, i) == i;
    AfterBlank(s, e);
  }

  lemma {:induction false} AfterBlank(s: string, i: nat)
    requires i < |s| && Space(s[i])
    ensures Tokens(s, i) == Tokens(s, i + 1)
  {
    assert SkipSpace(s, i) == SkipSpace(s, i + 1);
  }

  // ---- which lines are cut into which tokens ----

  predicate Blanks(g: string) { forall k :: 0 <= k < |g| ==> g[k] in " \t\r\n\U{B}" }

  /** Tokens that would run into one if nothing stood between them. */
  predicate Touchy(a: Token, b: Token) { (a.Word? && b.Word?) || (a == Sym('>') && (b == Sym('>') || b == Append)) }

  /** gaps[k] stands before token number k, and the last one behind them all. */
  predicate Apart(ts: seq<Token>, gaps: seq<string>) {
    && |gaps| == |ts| + 1
    && (forall k :: 0 <= k < |gaps| ==> Blanks(gaps[k]))
    && (forall k :: 0 < k < |ts| && Touchy(ts[k - 1], ts[k]) ==> gaps[k] != "")
  }

  function Laid(ts: seq<Token>, gaps: seq<string>): (s: string)
    requires |gaps| == |ts| + 1
  {
    gaps[0] + if ts == [] then "" else Spell(ts[0]) + Laid(ts[1..], gaps[1..])
  }

  lemma {:induction false} SkipTo(s: string, i: nat, j: nat)
    requires i <= j <= |s| && (forall k :: i <= k < j ==> Space(s[k])) && (j < |s| ==> !Space(s[j]))
    ensures SkipSpace(s, i) == j
    decreases j - i
  {
    if i < j {
      SkipTo(s, i + 1, j);
    }
  }

  lemma {:induction false} LaidStep(pre: string, g: string, t: Token, post: string)
    requires Blanks(g) && Proper(t) && Closes(t, post)
    ensures Tokens(pre + (g + (Spell(t) + post)), |pre|) == [t] + Tokens(pre + g + Spell(t) + post, |pre + g + Spell(t)|)
  {
    Regrouped(pre, g, Spell(t), post);
    TokenRead(pre + g, t, post);
    SkipGap(pre, g, pre + g + Spell(t) + post);
  }

  lemma Regrouped(pre: string, g: string, w: string, post: string)
    ensures pre + (g + (w + post)) == pre + g + w + post
  {
  }

  lemma {:induction false} SkipGap(pre: string, g: string, s: string)
    requires Blanks(g) && pre + g <= s && (|pre + g| < |s| ==> !Space(s[|pre + g|]))
    ensures SkipSpace(s, |pre|) == |pre + g|
  {
    forall k | |pre| <= k < |pre + g|
      ensures Space(s[k])
    {
      assert s[k] == (pre + g)[k] == g[k - |pre|];
    }
    SkipTo(s, |pre|, |pre + g|);
  }

  /** Tokens laid out with blanks where they are needed, and anywhere else, are cut back into themselves. */
  lemma {:induction false} LaidTrip(pre: string, ts: seq<Token>, gaps: seq<string>)
    requires AllProper(ts) && Apart(ts, gaps)
    ensures Tokens(pre + Laid(ts, gaps), |pre|) == ts
    decreases |ts|
  {
    if ts == [] {
      assert pre + gaps[0] == pre + Laid(ts, gaps);
      SkipGap(pre, gaps[0], pre + gaps[0]);
    } else {
      var t, tail := ts[0], ts[1..];
      TailApart(ts, gaps);
      Follows(t, tail, gaps[1..]);
      LaidStep(pre, gaps[0], t, Laid(tail, gaps[1..]));
      LaidTrip(pre + gaps[0] + Spell(t), tail, gaps[1..]);
    }
  }

  lemma {:induction false} TailApart(ts: seq<Token>, gaps: seq<string>)
    requires Apart(ts, gaps) && ts != []
    ensures Apart(ts[1..], gaps[1..])
  {
    forall k | 0 < k < |ts[1..]| && Touchy(ts[1..][k - 1], ts[1..][k])
      ensures gaps[1..][k] != ""
    {
      assert Touchy(ts[k + 1 - 1], ts[k + 1]);
    }
  }

  lemma {:induction false} Follows(t: Token, tail: seq<Token>, gaps: seq<string>)
    requires AllProper(tail) && |gaps| == |tail| + 1 && Blanks(gaps[0])
    requires tail != [] && Touchy(t, tail[0]) ==> gaps[0] != ""
    ensures Closes(t, Laid(tail, gaps))
  {
    var post := Laid(tail, gaps);
    if gaps[0] != "" {
      assert post[0] == gaps[0][0];
    } else if tail != [] {
      assert Proper(tail[0]);
      assert post[0] == Spell(tail[0])[0];
    }
  }

  /** Every line is its tokens laid out, with blanks where they are needed. */
  lemma {:induction false} LaidOut(s: string, i: nat) returns (gaps: seq<string>)
    requires i <= |s|
    ensures Apart(Tokens(s, i), gaps) && s[i..] == Laid(Tokens(s, i), gaps)
    decreases |s| - i
  {
    var j := SkipSpace(s, i);
    assert Blanks(s[i..j]);
    if j == |s| {
      gaps := [s[i..]];
    } else {
      var t, e := TokenAt(s, j), TokenEnd(s, j);
      var more := LaidOut(s, e);
      var tail := Tokens(s, e);
      gaps := [s[i..j]] + more;
      assert gaps[1..] == more && ([t] + tail)[1..] == tail;
      NotTouchy(s, j, more);
      HeadApart(t, tail, s[i..j], more);
      PutTogether(s, i, j, e);
    }
  }

  lemma PutTogether(s: string, i: nat, j: nat, e: nat)
    requires i <= j < |s| && !Space(s[j]) && e == TokenEnd(s, j)
    ensures s[i..] == s[i..j] + (Spell(TokenAt(s, j)) + s[e..])
  {
    assert s[j..e] == Spell(TokenAt(s, j));
    assert s[i..] == s[i..j] + (s[j..e] + s[e..]);
  }

  lemma {:induction false} NotTouchy(s: string, j: nat, more: seq<string>)
    requires j < |s| && !Space(s[j])
    requires var tail := Tokens(s, TokenEnd(s, j)); |more| == |tail| + 1 && s[TokenEnd(s, j)..] == Laid(tail, more)
    ensures var tail := Tokens(s, TokenEnd(s, j)); tail != [] && Touchy(TokenAt(s, j), tail[0]) ==> more[0] != ""
  {
    var e := TokenEnd(s, j);
    var tail := Tokens(s, e);
    if tail != [] && more[0] == "" {
      TokensProper(s, e);
      assert Proper(tail[0]);
      assert s[e..][0] == Spell(tail[0])[0];
    }
  }

  lemma {:induction false} HeadApart(t: Token, tail: seq<Token>, g: string, more: seq<string>)
    requires Apart(tail, more) && Blanks(g) && (tail != [] && Touchy(t, tail[0]) ==> more[0] != "")
    ensures Apart([t] + tail, [g] + more)
  {
    var ts, gaps := [t] + tail, [g] + more;
    forall k | 0 < k < |ts| && Touchy(ts[k - 1], ts[k])
      ensures gaps[k] != ""
    {
      assert gaps[k] == more[k - 1] && ts[k] == tail[k - 1];
      if k > 1 {
        assert Touchy(tail[k - 1 - 1], tail[k - 1]);
      }
    }
  }

  /** The lexer cuts s into ts exactly when s is ts laid out so that no two tokens run together. */
  lemma {:induction false} CutsExactly(s: string, ts: seq<Token>)
    ensures Tokens(s, 0) == ts <==> AllProper(ts) && exists gaps :: Apart(ts, gaps) && s == Laid(ts, gaps)
  {
    if Tokens(s, 0) == ts {
      TokensProper(s, 0);
      var gaps := LaidOut(s, 0);
      assert s[0..] == s;
      assert Apart(ts, gaps) && s == Laid(ts, gaps);
    }
    if AllProper(ts) && exists gaps :: Apart(ts, gaps) && s == Laid(ts, gaps) {
      var gaps :| Apart(ts, gaps) && s == Laid(ts, gaps);
      LaidTrip("", ts, gaps);
      assert "" + Laid(ts, gaps) == s;
    }
  }

  predicate ProperCmd(c: Cmd<string>) {
    match c
    case Exec(argv) => forall k :: 0 <= k < |argv| ==> Proper(Word(argv[k]))
    case Redir(b, f, _, _) => Proper(Word(f)) && ProperCmd(b)
    case Pipe(l, r) => ProperCmd(l) && ProperCmd(r)
    case List(l, r) => ProperCmd(l) && ProperCmd(r)
    case Back(b) => ProperCmd(b)
  }

  predicate AllProper(ts: seq<Token>) { forall k :: 0 <= k < |ts| ==> Proper(ts[k]) }

  lemma {:induction false} WordsProper(argv: seq<string>)
    requires forall k :: 0 <= k < |argv| ==> Proper(Word(argv[k]))
    ensures AllProper(Words(argv))
  {
    if argv != [] {
      WordsProper(argv[1..]);
    }
  }

  lemma {:induction false} CoreProper(c: Cmd<string>)
    requires ProperCmd(c)
    ensures ProperCmd(Core(c)) && AllProper(RedirTokens(Outer(c)))
  {
    if c.Redir? {
      CoreProper(c.cmd);
      RedirTokensLast(Outer(c.cmd), To(c.file, c.mode, c.fd));
    }
  }

  lemma {:induction false} RedirTokensLast(rs: seq<Redirection<string>>, r: Redirection<string>)
    ensures RedirTokens(rs + [r]) == RedirTokens(rs) + RedirTokens([r])
    decreases |rs|
  {
    if rs == [] {
      assert rs + [r] == [r];
    } else {
      assert (rs + [r])[1..] == rs[1..] + [r];
      RedirTokensLast(rs[1..], r);
    }
  }

  lemma {:induction false} PrintProper(c: Cmd<string>)
    requires ProperCmd(c)
    ensures AllProper(PrintExec(c)) && AllProper(PrintPipe(c)) && AllProper(PrintBack(c)) && AllProper(PrintLine(c))
    decreases c, 1
  {
    CoreProper(c);
    var b := Core(c);
    if b.Exec? {
      WordsProper(b.argv);
    } else {
      InnerProper(b);
    }
    if !c.Redir? && !c.Exec? {
      InnerProper(c);
    }
  }

  lemma {:induction false} InnerProper(c: Cmd<string>)
    requires ProperCmd(c) && !c.Redir? && !c.Exec?
    ensures AllProper(PrintInner(c))
    decreases c, 0
  {
    match c
    case Pipe(l, r) =>
      PrintProper(l);
      PrintProper(r);
    case List(l, r) =>
      PrintProper(l);
      PrintProper(r);
    case Back(b) =>
      PrintProper(b);
  }

  /** Printing any command tree as a line and parsing the line gives the tree back. */
  lemma {:induction false} LineRoundTrip(c: Cmd<string>)
    requires Fits(c) && ProperCmd(c)
    ensures ParseCmd(Tokens(Render(PrintLine(c)), 0)) == Ok(c, [])
  {
    PrintProper(c);
    RenderTrip("", PrintLine(c));
    assert "" + Render(PrintLine(c)) == Render(PrintLine(c));
    RoundTrip(c);
  }

  lemma {:induction false} PlainProper(ts: seq<Token>)
    requires AllProper(ts)
    ensures AllProper(Plain(ts))
    decreases |ts|
  {
    if ts != [] {
      PlainProper(ts[1..]);
    }
  }

  /** Rewriting any line with '>' for every '>>' changes neither its tree nor its error. */
  lemma {:induction false} AppendLine(s: string)
    ensures ParseCmd(Tokens(Render(Plain(Tokens(s, 0))), 0)) == ParseCmd(Tokens(s, 0))
  {
    var ts := Tokens(s, 0);
    TokensProper(s, 0);
    PlainProper(ts);
    RenderTrip("", Plain(ts));
    assert "" + Render(Plain(ts)) == Render(Plain(ts));
    AppendIsWrite(ts);
  }
}
