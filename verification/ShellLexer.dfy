/** sh.c: whitespace, symbols and words; what gettoken makes of a line, as a function,
    and spelling tokens out again. */
module ShellLexer {
  import opened ShellGrammar

  predicate IsWhite(c: char) {
    c == ' ' || c == '\t' || c == '\r' || c == '\n' || c == '\U{b}'
  }

  predicate IsSymbol(c: char) {
    c == '<' || c == '|' || c == '>' || c == '&' || c == ';' || c == '(' || c == ')'
  }

  predicate IsWord(c: char) {
    !IsWhite(c) && !IsSymbol(c)
  }

  /** The first position from p on that is not white. */
  function Skip(s: string, p: nat): (i: nat)
    requires p <= |s|
    ensures p <= i <= |s| && (i < |s| ==> !IsWhite(s[i])) && forall j :: p <= j < i ==> IsWhite(s[j])
    decreases |s| - p
  {
    if p < |s| && IsWhite(s[p]) then Skip(s, p + 1) else p
  }

  /** The first position from p on that is no word character. */
  function WordEnd(s: string, p: nat): (i: nat)
    requires p <= |s|
    ensures p <= i <= |s| && (i < |s| ==> !IsWord(s[i])) && forall j :: p <= j < i ==> IsWord(s[j])
    ensures p < |s| && IsWord(s[p]) ==> p < i
    decreases |s| - p
  {
    if p < |s| && IsWord(s[p]) then WordEnd(s, p + 1) else p
  }

  function TokenEnd(s: string, i: nat): (e: nat)
    requires i < |s| && !IsWhite(s[i])
    ensures i < e <= |s|
  {
    if s[i] == '>' && i + 1 < |s| && s[i + 1] == '>' then i + 2
    else if IsSymbol(s[i]) then i + 1 else WordEnd(s, i)
  }

  function TokenAt(s: string, i: nat): (t: Token)
    requires i < |s| && !IsWhite(s[i])
  {
    if s[i] == '>' && i + 1 < |s| && s[i + 1] == '>' then Sym('+')
    else if IsSymbol(s[i]) then Sym(s[i]) else Word(s[i..WordEnd(s, i)])
  }

  /** The tokens from p on. */
  function Lex(s: string, p: nat): (ts: seq<Token>)
    requires p <= |s|
    decreases |s| - p
  {
    var i := Skip(s, p);
    if i == |s| then [] else [TokenAt(s, i)] + Lex(s, TokenEnd(s, i))
  }

  lemma SkipWhite(s: string, p: nat, i: nat)
    requires p <= i <= |s| && forall j :: p <= j < i ==> IsWhite(s[j])
    ensures Skip(s, i) == Skip(s, p) && Lex(s, i) == Lex(s, p)
  {
    var a, b := Skip(s, p), Skip(s, i);
    assert a >= i;
    assert a == b;
  }

  // ---- spelling ----

  ghost predicate GoodWord(w: string) {
    w != "" && forall i :: 0 <= i < |w| ==> IsWord(w[i])
  }

  ghost predicate GoodToken(t: Token) {
    match t
    case Word(w) => GoodWord(w)
    case Sym(c) => IsSymbol(c) || c == '+'
  }

  function SpellToken(t: Token): (w: string) {
    match t
    case Word(w) => w
    case Sym(c) => if c == '+' then ">>" else [c]
  }

  ghost predicate AllWhite(g: string) {
    forall i :: 0 <= i < |g| ==> IsWhite(g[i])
  }

  /** Tokens that would run together without white space between them. */
  predicate Clash(t: Token, u: Token) {
    (t.Word? && u.Word?) || (t == Sym('>') && (u == Sym('>') || u == Sym('+')))
  }

  /** The tokens spelled out, with gaps before, between and behind them. */
  function Spaced(gaps: seq<string>, ts: seq<Token>): (s: string)
    requires |gaps| == |ts| + 1
    decreases |ts|
  {
    if ts == [] then gaps[0] else gaps[0] + SpellToken(ts[0]) + Spaced(gaps[1..], ts[1..])
  }

  /** White gaps that keep apart what would run together. */
  ghost predicate Spacing(gaps: seq<string>, ts: seq<Token>) {
    && |gaps| == |ts| + 1 && (forall i :: 0 <= i < |gaps| ==> AllWhite(gaps[i]))
    && forall i :: 0 < i < |ts| && Clash(ts[i - 1], ts[i]) ==> gaps[i] != ""
  }

  /** What follows does not lengthen token t. */
  ghost predicate Closed(t: Token, post: string) {
    post != "" ==> (t.Word? ==> !IsWord(post[0])) && (t == Sym('>') ==> post[0] != '>')
  }

  /** One spelled token, anywhere in a line. */
  lemma LexOne(pre: string, t: Token, post: string)
    requires GoodToken(t) && Closed(t, post)
    ensures var s, i := pre + SpellToken(t) + post, |pre|;
      i < |s| && !IsWhite(s[i]) && TokenAt(s, i) == t && TokenEnd(s, i) == i + |SpellToken(t)|
  {
    var w := SpellToken(t);
    var s, i := pre + w + post, |pre|;
    assert forall j :: 0 <= j < |w| ==> s[i + j] == w[j];
    assert post != "" ==> s[i + |w|] == post[0];
    if t.Word? {
      assert WordEnd(s, i) == i + |w| by {
        assert forall j :: i <= j < i + |w| ==> s[j] == w[j - i];
      }
      assert s[i..i + |w|] == w;
    }
  }

  lemma SpacingTail(gaps: seq<string>, ts: seq<Token>)
    requires Spacing(gaps, ts) && ts != []
    ensures Spacing(gaps[1..], ts[1..]) && AllWhite(gaps[0])
  {
    forall i | 0 < i < |ts[1..]| && Clash(ts[1..][i - 1], ts[1..][i]) ensures gaps[1..][i] != "" {
      assert Clash(ts[i], ts[i + 1]);
    }
  }

  /** What is written behind the first token leaves it alone. */
  lemma ClosedByNext(t: Token, gaps: seq<string>, ts: seq<Token>)
    requires |gaps| == |ts| + 1 && AllWhite(gaps[0]) && (forall i :: 0 <= i < |ts| ==> GoodToken(ts[i]))
    requires ts != [] && Clash(t, ts[0]) ==> gaps[0] != ""
    ensures Closed(t, Spaced(gaps, ts))
  {
    var s := Spaced(gaps, ts);
    if gaps[0] != "" {
      assert s[0] == gaps[0][0] && IsWhite(gaps[0][0]);
    } else if ts != [] {
      assert s[0] == SpellToken(ts[0])[0];
    }
  }

  /** However tokens are spaced, they are read back. */
  lemma {:induction false} LexSpaced(pre: string, gaps: seq<string>, ts: seq<Token>)
    requires Spacing(gaps, ts) && forall i :: 0 <= i < |ts| ==> GoodToken(ts[i])
    ensures Lex(pre + Spaced(gaps, ts), |pre|) == ts
    decreases |ts|
  {
    hide Lex, TokenAt, TokenEnd, Skip, SpellToken, IsWhite, GoodToken, Clash, Closed;
    var s := pre + Spaced(gaps, ts);
    if ts == [] {
      assert AllWhite(gaps[0]);
      WhiteHere(pre, gaps[0], "");
      assert s == pre + gaps[0] + "";
      LexEnd(s);
    } else {
      var g, w, post := gaps[0], SpellToken(ts[0]), Spaced(gaps[1..], ts[1..]);
      SpacingTail(gaps, ts);
      assert Closed(ts[0], post) by { assert gaps[1..][0] == gaps[1]; ClosedByNext(ts[0], gaps[1..], ts[1..]); }
      hide Spacing;
      assert s == pre + g + (w + post) == (pre + g) + w + post == (pre + g + w) + post;
      WhiteHere(pre, g, w + post);
      LexOne(pre + g, ts[0], post);
      LexStep(s, |pre + g|);
      LexSpaced(pre + g + w, gaps[1..], ts[1..]);
      assert [ts[0]] + ts[1..] == ts;
    }
  }

  lemma WhiteHere(pre: string, g: string, post: string)
    requires AllWhite(g)
    ensures Lex(pre + g + post, |pre|) == Lex(pre + g + post, |pre + g|)
  {
    var s := pre + g + post;
    assert forall j :: |pre| <= j < |pre + g| ==> s[j] == g[j - |pre|];
    SkipWhite(s, |pre|, |pre + g|);
  }

  lemma LexEnd(s: string)
    ensures Lex(s, |s|) == []
  {
  }

  lemma LexStep(s: string, p: nat)
    requires p < |s| && !IsWhite(s[p])
    ensures Lex(s, p) == [TokenAt(s, p)] + Lex(s, TokenEnd(s, p))
  {
    assert Skip(s, p) == p;
  }

  /** The white space of a line, around its tokens. */
  ghost function Gaps(s: string, p: nat): (g: seq<string>)
    requires p <= |s|
    ensures |g| == |Lex(s, p)| + 1
    decreases |s| - p
  {
    var i := Skip(s, p);
    if i == |s| then [s[p..]] else [s[p..i]] + Gaps(s, TokenEnd(s, i))
  }

  lemma TokenGood(s: string, i: nat)
    requires i < |s| && !IsWhite(s[i])
    ensures GoodToken(TokenAt(s, i)) && s[i..TokenEnd(s, i)] == SpellToken(TokenAt(s, i))
    ensures Closed(TokenAt(s, i), s[TokenEnd(s, i)..])
  {
  }

  /** A token that begins where another ends does not clash with it. */
  lemma NoClash(s: string, i: nat)
    requires i < |s| && !IsWhite(s[i])
    ensures var e := TokenEnd(s, i); e < |s| && !IsWhite(s[e]) ==> !Clash(TokenAt(s, i), TokenAt(s, e))
  {
  }

  lemma GapsOpen(s: string, p: nat)
    requires p <= |s|
    ensures var i := Skip(s, p);
      if i == |s| then Gaps(s, p) == [s[p..]] && Lex(s, p) == []
      else
        && Gaps(s, p) == [s[p..i]] + Gaps(s, TokenEnd(s, i)) && Lex(s, p) == [TokenAt(s, i)] + Lex(s, TokenEnd(s, i))
  {
  }

  /** Every line is some spacing of the tokens read from it: nothing is lost, words are as
      long as they can be, and so is >>. */
  lemma {:induction false} LexIsSpacing(s: string, p: nat)
    requires p <= |s|
    ensures Spaced(Gaps(s, p), Lex(s, p)) == s[p..] && Spacing(Gaps(s, p), Lex(s, p))
    ensures forall i :: 0 <= i < |Lex(s, p)| ==> GoodToken(Lex(s, p)[i])
    decreases |s| - p
  {
    hide Lex, Gaps, TokenAt, TokenEnd, GoodToken, SpellToken, Clash, IsWhite;
    GapsOpen(s, p);
    var i := Skip(s, p);
    if i < |s| {
      var e := TokenEnd(s, i);
      TokenGood(s, i);
      LexIsSpacing(s, e);
      var ts, gs := Lex(s, e), Gaps(s, e);
      var ts1, gs1 := Lex(s, p), Gaps(s, p);
      assert ts1[1..] == ts && gs1[1..] == gs;
      assert s[p..] == s[p..i] + s[i..e] + s[e..];
      assert ts != [] && Clash(ts1[0], ts[0]) ==> gs[0] != "" by {
        GapsOpen(s, e);
        if ts != [] && Skip(s, e) == e { NoClash(s, i); }
      }
      SpacingFront(gs1, ts1);
    }
  }

  lemma SpacingFront(gaps: seq<string>, ts: seq<Token>)
    requires |gaps| == |ts| + 1 && ts != [] && AllWhite(gaps[0]) && Spacing(gaps[1..], ts[1..])
    requires |ts| > 1 && Clash(ts[0], ts[1]) ==> gaps[1] != ""
    ensures Spacing(gaps, ts)
  {
    hide Clash, AllWhite;
    forall i | 0 <= i < |gaps| ensures AllWhite(gaps[i]) { if i > 0 { assert gaps[i] == gaps[1..][i - 1]; } }
    forall i | 0 < i < |ts| && Clash(ts[i - 1], ts[i]) ensures gaps[i] != "" {
      if i > 1 { assert ts[i - 1] == ts[1..][i - 2] && ts[i] == ts[1..][i - 1] && gaps[i] == gaps[1..][i - 1]; }
    }
  }

  /** The string without its white space, and the tokens without any. */
  function Squeezed(s: string): (r: string) {
    if s == "" then "" else (if IsWhite(s[0]) then "" else [s[0]]) + Squeezed(s[1..])
  }

  function Letters(ts: seq<Token>): (r: string) {
    if ts == [] then "" else SpellToken(ts[0]) + Letters(ts[1..])
  }

  lemma {:induction false} SqueezedJoin(s: string, r: string)
    ensures Squeezed(s + r) == Squeezed(s) + Squeezed(r)
    decreases |s|
  {
    hide IsWhite;
    if s == "" {
      assert s + r == r;
    } else {
      var c := if IsWhite(s[0]) then "" else [s[0]];
      assert Squeezed(s) == c + Squeezed(s[1..]);
      assert (s + r)[1..] == s[1..] + r && (s + r)[0] == s[0];
      assert Squeezed(s + r) == c + Squeezed(s[1..] + r);
      hide Squeezed;
      SqueezedJoin(s[1..], r);
    }
  }

  lemma {:induction false} SqueezedWhite(g: string)
    requires AllWhite(g)
    ensures Squeezed(g) == ""
    decreases |g|
  {
    if g != "" { SqueezedWhite(g[1..]); }
  }

  lemma {:induction false} SqueezedWord(w: string)
    requires forall i :: 0 <= i < |w| ==> !IsWhite(w[i])
    ensures Squeezed(w) == w
    decreases |w|
  {
    if w != "" {
      SqueezedWord(w[1..]);
      assert [w[0]] + w[1..] == w;
    }
  }

  lemma SpelledBlack(t: Token)
    requires GoodToken(t)
    ensures forall i :: 0 <= i < |SpellToken(t)| ==> !IsWhite(SpellToken(t)[i])
  {
  }

  lemma {:induction false} SqueezedSpaced(gaps: seq<string>, ts: seq<Token>)
    requires Spacing(gaps, ts) && forall i :: 0 <= i < |ts| ==> GoodToken(ts[i])
    ensures Squeezed(Spaced(gaps, ts)) == Letters(ts)
    decreases |ts|
  {
    hide Squeezed, SpellToken, GoodToken, Clash, IsWhite;
    assert AllWhite(gaps[0]);
    SqueezedWhite(gaps[0]);
    if ts != [] {
      var g, w, post := gaps[0], SpellToken(ts[0]), Spaced(gaps[1..], ts[1..]);
      SpacingTail(gaps, ts);
      SqueezedSpaced(gaps[1..], ts[1..]);
      SpelledBlack(ts[0]);
      SqueezedWord(w);
      SqueezedJoin(g, w);
      SqueezedJoin(g + w, post);
    }
  }

  /** The characters of a line that are not white are those of its tokens, in order. */
  lemma LexKeepsLetters(s: string)
    ensures Letters(Lex(s, 0)) == Squeezed(s)
  {
    hide Lex, Gaps, Spaced, Spacing, GoodToken, Squeezed, Letters;
    LexIsSpacing(s, 0);
    SqueezedSpaced(Gaps(s, 0), Lex(s, 0));
    assert s[0..] == s;
  }

  ghost predicate GoodTree(t: Tree) {
    match t
    case Exec(args) => |args| < MAXARGS && forall i :: 0 <= i < |args| ==> GoodWord(args[i])
    case Redir(sub, file, _) => GoodTree(sub) && GoodWord(file)
    case Pipe(l, r) => GoodTree(l) && GoodTree(r)
    case List(l, r) => GoodTree(l) && GoodTree(r)
    case Back(sub) => GoodTree(sub)
  }

  ghost predicate GoodTokens(ts: seq<Token>) {
    forall i :: 0 <= i < |ts| ==> GoodToken(ts[i])
  }

  lemma {:induction false} GoodExec(t: Tree)
    requires GoodTree(t)
    ensures FewArgs(t) && GoodTokens(RExec(t))
    decreases t, Rank(t, 0)
  {
    match t
    case Exec(args) => GoodWords(args);
    case Redir(sub, _, _) => GoodExec(sub);
    case Pipe(_, _) => GoodLine(t);
    case List(_, _) => GoodLine(t);
    case Back(_) => GoodLine(t);
  }

  lemma {:induction false} GoodWords(args: seq<string>)
    requires forall i :: 0 <= i < |args| ==> GoodWord(args[i])
    ensures GoodTokens(Words(args))
  {
    if args != [] { GoodWords(args[1..]); }
  }

  lemma {:induction false} GoodPipe(t: Tree)
    requires GoodTree(t)
    ensures FewArgs(t) && GoodTokens(RPipe(t))
    decreases t, Rank(t, 1)
  {
    if t.Pipe? {
      GoodExec(t.left);
      GoodPipe(t.right);
    } else {
      GoodExec(t);
    }
  }

  lemma {:induction false} GoodBack(t: Tree)
    requires GoodTree(t)
    ensures FewArgs(t) && GoodTokens(RBack(t))
    decreases t, Rank(t, 2)
  {
    if t.Back? { GoodBack(t.sub); } else { GoodPipe(t); }
  }

  lemma {:induction false} GoodLine(t: Tree)
    requires GoodTree(t)
    ensures FewArgs(t) && GoodTokens(RLine(t))
    decreases t, Rank(t, 3)
  {
    if t.List? {
      GoodBack(t.left);
      GoodLine(t.right);
    } else {
      GoodBack(t);
    }
  }

  /** Every command tree, written out with any white space, is parsed back to itself. */
  lemma RenderParse(t: Tree, gaps: seq<string>)
    requires GoodTree(t) && Spacing(gaps, RLine(t))
    ensures PLine(Lex(Spaced(gaps, RLine(t)), 0)) == Ok(t, [])
  {
    hide PLine, RLine, Lex, Spaced;
    GoodLine(t);
    LexSpaced("", gaps, RLine(t));
    assert "" + Spaced(gaps, RLine(t)) == Spaced(gaps, RLine(t));
    LineBack(t, []);
    assert RLine(t) + [] == RLine(t);
  }
}
