/** sh.c: gettoken, peek and the recursive-descent parser, which advance one cursor
    through the line, and nulterminate, which cuts the words of the result out of the
    line in place. */
module ShellParser {
  import opened ShellGrammar
  import opened ShellLexer

  /** The characters from q up to eq. */
  datatype Span = Span(q: int, eq: int)
  type Node = Cmd<Span>

  function Text(s: string, w: Span): (t: string) {
    if 0 <= w.q <= w.eq <= |s| then s[w.q..w.eq] else ""
  }

  function Texts(s: string, ws: seq<Span>): (ts: seq<string>)
    ensures |ts| == |ws|
  {
    if ws == [] then [] else Texts(s, ws[..|ws| - 1]) + [Text(s, ws[|ws| - 1])]
  }

  /** The tree a node stands for. */
  function TreeOf(s: string, c: Node): (t: Tree) {
    match c
    case Exec(args) => Exec(Texts(s, args))
    case Redir(sub, file, kind) => Redir(TreeOf(s, sub), Text(s, file), kind)
    case Pipe(l, r) => Pipe(TreeOf(s, l), TreeOf(s, r))
    case List(l, r) => List(TreeOf(s, l), TreeOf(s, r))
    case Back(sub) => Back(TreeOf(s, sub))
  }

  function RedirsOf(s: string, rs: seq<Redirection<Span>>): (r: seq<Redirection<string>>)
    ensures |r| == |rs|
  {
    if rs == [] then []
    else RedirsOf(s, rs[..|rs| - 1]) + [Redirection(Text(s, rs[|rs| - 1].file), rs[|rs| - 1].kind)]
  }

  /** A word that reaches as far as it can. */
  ghost predicate WholeWord(s: string, w: Span) {
    && 0 <= w.q < w.eq <= |s| && (forall j :: w.q <= j < w.eq ==> IsWord(s[j]))
    && (w.eq < |s| ==> !IsWord(s[w.eq]))
  }

  ghost predicate Whole(s: string, c: Node) {
    match c
    case Exec(args) => forall i :: 0 <= i < |args| ==> WholeWord(s, args[i])
    case Redir(sub, file, _) => Whole(s, sub) && WholeWord(s, file)
    case Pipe(l, r) => Whole(s, l) && Whole(s, r)
    case List(l, r) => Whole(s, l) && Whole(s, r)
    case Back(sub) => Whole(s, sub)
  }

  ghost predicate WholeRedirs(s: string, rs: seq<Redirection<Span>>) {
    forall i :: 0 <= i < |rs| ==> WholeWord(s, rs[i].file)
  }

  lemma {:induction false} WrapTree(s: string, c: Node, rs: seq<Redirection<Span>>)
    requires Whole(s, c) && WholeRedirs(s, rs)
    ensures TreeOf(s, Wrap(c, rs)) == Wrap(TreeOf(s, c), RedirsOf(s, rs)) && Whole(s, Wrap(c, rs))
    decreases |rs|
  {
    if rs != [] {
      WrapTree(s, c, rs[..|rs| - 1]);
      var r := RedirsOf(s, rs);
      assert r[..|r| - 1] == RedirsOf(s, rs[..|rs| - 1]);
    }
  }

  /** The first character of a symbol token. */
  function Lead(t: Token): (c: char) {
    if t.Sym? then (if t.c == '+' then '>' else t.c) else 'a'
  }

  class Parser {
    const s: string
    var pos: nat

    ghost predicate Valid()
      reads this
    {
      pos <= |s|
    }

    ghost function Ahead(): (ts: seq<Token>)
      requires Valid()
      reads this
    {
      Lex(s, pos)
    }

    constructor (s: string)
      ensures this.s == s && pos == 0
    {
      this.s := s;
      pos := 0;
    }

    /** while(s < es && strchr(whitespace, *s)) s++; */
    method SkipBlanks(p: nat) returns (i: nat)
      requires p <= |s|
      ensures i == Skip(s, p) && Lex(s, i) == Lex(s, p)
    {
      i := p;
      while i < |s| && IsWhite(s[i])
        invariant p <= i <= |s| && forall j :: p <= j < i ==> IsWhite(s[j])
      {
        i := i + 1;
      }
      SkipWhite(s, p, i);
    }

    /** peek: whether the next token begins with one of the symbols in toks. */
    method Peek(toks: string) returns (b: bool)
      requires Valid() && forall i :: 0 <= i < |toks| ==> IsSymbol(toks[i])
      modifies this`pos
      ensures Valid() && Ahead() == old(Ahead()) && (pos < |s| ==> !IsWhite(s[pos]))
      ensures b <==> Ahead() != [] && Ahead()[0].Sym? && Lead(Ahead()[0]) in toks
    {
      pos := SkipBlanks(pos);
      b := pos < |s| && s[pos] in toks;
      if pos < |s| { LexStep(s, pos); }
    }

    /** The scan over a word. */
    method ReadWord(q: nat) returns (i: nat)
      requires q < |s| && IsWord(s[q])
      ensures i == WordEnd(s, q) && WholeWord(s, Span(q, i)) && Text(s, Span(q, i)) == s[q..WordEnd(s, q)]
    {
      i := q;
      while i < |s| && !IsWhite(s[i]) && !IsSymbol(s[i])
        invariant q <= i <= |s| && forall j :: q <= j < i ==> IsWord(s[j])
      {
        i := i + 1;
      }
      assert i == WordEnd(s, q);
    }

    /** gettoken: the next token, as its kind ('a' for a word, NUL at the end) and,
        for a word, its span. */
    method GetToken() returns (ret: char, w: Span)
      requires Valid()
      modifies this`pos
      ensures Valid() && (old(Ahead()) == [] ==> ret == '\0' && Ahead() == [])
      ensures old(Ahead()) != [] ==> Ahead() == old(Ahead())[1..]
      ensures old(Ahead()) != [] && old(Ahead())[0].Sym? ==> ret == old(Ahead())[0].c && (IsSymbol(ret) || ret == '+')
      ensures old(Ahead()) != [] && old(Ahead())[0].Word? ==>
        ret == 'a' && WholeWord(s, w) && Text(s, w) == old(Ahead())[0].text
    {
      hide Lex, WholeWord, Text, IsWhite;
      var i := SkipBlanks(pos);
      w := Span(i, i);
      if i == |s| {
        LexEnd(s);
        pos := i;
        return '\0', w;
      }
      LexStep(s, i);
      ret := s[i];
      var e;
      if s[i] == '>' {
        e := i + 1;
        if e < |s| && s[e] == '>' {
          ret := '+';
          e := e + 1;
        }
      } else if IsSymbol(s[i]) {
        e := i + 1;
      } else {
        ret := 'a';
        e := ReadWord(i);
        w := Span(i, e);
      }
      pos := SkipBlanks(e);
    }

    /** parseredirs; the redirections are wrapped around the command by the caller. */
    method ParseRedirs() returns (ok: bool, rs: seq<Redirection<Span>>)
      requires Valid()
      modifies this`pos
      ensures Valid() && WholeRedirs(s, rs) && ok == PRedirs(old(Ahead())).Ok?
      ensures ok ==> PRedirs(old(Ahead())) == Ok(RedirsOf(s, rs), Ahead())
    {
      hide PRedirs, Lex, WholeWord, Text, IsSymbol;
      rs, ok := [], true;
      ghost var ts0 := Ahead();
      NoneYet(PRedirs(ts0));
      SymbolsOk();
      while true
        invariant Valid() && WholeRedirs(s, rs) && ok
        invariant MoreRedirs(RedirsOf(s, rs), PRedirs(Ahead())) == PRedirs(ts0)
        decreases |Ahead()|
      {
        ghost var ts := Ahead();
        var b := Peek("<>");
        if !b {
          PRedirsStop(ts);
          assert RedirsOf(s, rs) + [] == RedirsOf(s, rs);
          break;
        }
        var tok, _ := GetToken();
        var ret, w := GetToken();
        RedirCases(ts);
        if ret != 'a' { return false, rs; }
        OneRedir(s, rs, ts, w, Ahead());
        rs := rs + [Redirection(w, KindOf(tok))];
      }
    }

    /** The argument loop of parseexec.  The words go into argv and eargv, which have
        MAXARGS places each, the last one for the terminator. */
    method ParseArgs() returns (ok: bool, args: seq<Span>, rs: seq<Redirection<Span>>)
      requires Valid()
      modifies this`pos
      ensures Valid() && WholeRedirs(s, rs) && (forall i :: 0 <= i < |args| ==> WholeWord(s, args[i]))
      ensures ok == PArgs(old(Ahead()), 0).Ok? && |args| < MAXARGS
      ensures ok ==> PArgs(old(Ahead()), 0) == Ok((Texts(s, args), RedirsOf(s, rs)), Ahead())
    {
      hide PArgs, PRedirs, Lex, WholeWord, Text, IsSymbol, Texts, RedirsOf, MoreArgs, WholeRedirs, Lead, AtStop;
      var argv, eargv := new int[MAXARGS], new int[MAXARGS];
      var argc := 0;
      rs, ok, args := [], true, [];
      ghost var ts0 := Ahead();
      NoArgsYet(s, PArgs(ts0, 0));
      SymbolsOk();
      while true
        invariant Valid() && WholeRedirs(s, rs) && ok && 0 <= argc < MAXARGS && argc == |args|
        invariant forall i :: 0 <= i < argc ==> args[i] == Span(argv[i], eargv[i])
        invariant forall i :: 0 <= i < argc ==> WholeWord(s, args[i])
        invariant MoreArgs(Texts(s, args), RedirsOf(s, rs), PArgs(Ahead(), argc)) == PArgs(ts0, 0)
        decreases |Ahead()|
      {
        ghost var ts := Ahead();
        var stop := Peek("|)&;");
        ArgCases(ts, argc);
        FailStays(Texts(s, args), RedirsOf(s, rs));
        if stop {
          StopArgs(Texts(s, args), RedirsOf(s, rs), ts, argc);
          break;
        }
        var tok, w := GetToken();
        if tok == '\0' {
          StopArgs(Texts(s, args), RedirsOf(s, rs), ts, argc);
          break;
        }
        if tok != 'a' { return false, args, rs; }
        argv[argc] := w.q;
        eargv[argc] := w.eq;
        if argc + 1 >= MAXARGS { return false, args, rs; }
        ghost var mid := Ahead();
        var more, found := ParseRedirs();
        OneArg(s, args, rs, ts, argc, w, mid, found, more, Ahead());
        if !more { return false, args, rs; }
        args, rs := args + [w], rs + found;
        argc := argc + 1;
      }
      argv[argc] := -1;
      eargv[argc] := -1;
    }

    /** parseexec and parseblock. */
    method ParseExec() returns (ok: bool, c: Node)
      requires Valid()
      modifies this`pos
      ensures Valid() && Agrees(s, PExec(old(Ahead())), ok, c, Ahead())
      decreases |Ahead()|, 0
    {
      hide PArgs, PRedirs, PLine, PExec, Lex, IsSymbol, Wrap, WholeRedirs, WholeWord;
      SymbolsOk();
      ghost var ts := Ahead();
      c := Exec([]);
      var block := Peek("(");
      if block {
        var _, _ := GetToken();
        ok, c := ParseLine();
        ghost var line := Ahead();
        if !ok {
          BlockFails(ts, line, Fail);
          return;
        }
        var close := Peek(")");
        if !close {
          BlockFails(ts, line, Fail);
          return false, c;
        }
        var _, _ := GetToken();
        var more, rs := ParseRedirs();
        if !more {
          BlockFails(ts, line, PRedirs(line[1..]));
          return false, c;
        }
        PExecBlock(ts, TreeOf(s, c), line, RedirsOf(s, rs), Ahead());
        WrapTree(s, c, rs);
        return true, Wrap(c, rs);
      }
      var first, rs := ParseRedirs();
      ghost var mid := Ahead();
      if !first {
        SimpleFails(ts, mid);
        return false, c;
      }
      var args, rs1;
      ok, args, rs1 := ParseArgs();
      if !ok {
        SimpleFails(ts, mid);
        return;
      }
      PExecSimple(ts, RedirsOf(s, rs), mid, Texts(s, args), RedirsOf(s, rs1), Ahead());
      RedirsPlus(s, rs, rs1);
      WrapTree(s, Exec(args), rs + rs1);
      c := Wrap(Exec(args), rs + rs1);
    }

    method ParsePipe() returns (ok: bool, c: Node)
      requires Valid()
      modifies this`pos
      ensures Valid() && Agrees(s, PPipe(old(Ahead())), ok, c, Ahead())
      decreases |Ahead()|, 1
    {
      hide PExec, Lex, IsSymbol;
      SymbolsOk();
      ok, c := ParseExec();
      if !ok { return; }
      var pipe := Peek("|");
      if pipe {
        var _, _ := GetToken();
        var d;
        ok, d := ParsePipe();
        c := Pipe(c, d);
      }
    }

    method ParseLine() returns (ok: bool, c: Node)
      requires Valid()
      modifies this`pos
      ensures Valid() && Agrees(s, PLine(old(Ahead())), ok, c, Ahead())
      decreases |Ahead()|, 2
    {
      hide PPipe, Lex, IsSymbol;
      SymbolsOk();
      ghost var ts := Ahead();
      ok, c := ParsePipe();
      if !ok { return; }
      ghost var job := PPipe(ts);
      while true
        invariant Valid() && Whole(s, c) && |Ahead()| <= |job.rest|
        invariant JobsLeft(TreeOf(s, c), Ahead()) == JobsLeft(job.value, job.rest)
        decreases |Ahead()|
      {
        ghost var here := Ahead();
        var b := Peek("&");
        AmpCases(TreeOf(s, c), here);
        if !b { break; }
        var _, _ := GetToken();
        c := Back(c);
      }
      var more := Peek(";");
      if more {
        var _, _ := GetToken();
        var d;
        ok, d := ParseLine();
        c := List(c, d);
      }
    }

    /** parsecmd: the command the grammar gives the whole line, if it gives one; a
        success has consumed all of it. */
    method ParseCmd() returns (ok: bool, c: Node)
      requires pos == 0
      modifies this`pos
      ensures ok <==> PLine(Lex(s, 0)).Ok? && PLine(Lex(s, 0)).rest == []
      ensures ok ==> PLine(Lex(s, 0)) == Ok(TreeOf(s, c), []) && Whole(s, c) && pos == |s|
    {
      hide PLine, Lex, IsWhite;
      ok, c := ParseLine();
      if !ok { return; }
      var _ := Peek("");
      if pos != |s| {
        NotAtEnd(s, pos);
        ok := false;
      } else {
        LexEnd(s);
      }
    }
  }

  lemma NotAtEnd(s: string, p: nat)
    requires p < |s| && !IsWhite(s[p])
    ensures Lex(s, p) != []
  {
    LexStep(s, p);
  }

  // ---- nulterminate ----

  /** Where nulterminate puts its NULs. */
  ghost function Cuts(c: Node): (r: set<int>) {
    match c
    case Exec(args) => set w | w in args :: w.eq
    case Redir(sub, file, _) => Cuts(sub) + {file.eq}
    case Pipe(l, r) => Cuts(l) + Cuts(r)
    case List(l, r) => Cuts(l) + Cuts(r)
    case Back(sub) => Cuts(sub)
  }

  /** The words of a command. */
  ghost predicate HasWord(c: Node, w: Span) {
    match c
    case Exec(args) => w in args
    case Redir(sub, file, _) => w == file || HasWord(sub, w)
    case Pipe(l, r) => HasWord(l, w) || HasWord(r, w)
    case List(l, r) => HasWord(l, w) || HasWord(r, w)
    case Back(sub) => HasWord(sub, w)
  }

  /** The line as the shell holds it, NUL-terminated. */
  ghost predicate Holds(buf: array<char>, s: string)
    reads buf
  {
    buf.Length == |s| + 1 && buf[..|s|] == s && buf[|s|] == '\0'
  }

  lemma {:induction false} CutsInside(s: string, c: Node)
    requires Whole(s, c)
    ensures forall x :: x in Cuts(c) ==> 0 <= x <= |s| && (x < |s| ==> !IsWord(s[x]))
  {
    match c
    case Exec(args) =>
      forall x | x in Cuts(c) ensures 0 <= x <= |s| && (x < |s| ==> !IsWord(s[x])) {
        var w :| w in args && w.eq == x;
        var i :| 0 <= i < |args| && args[i] == w;
        assert WholeWord(s, args[i]);
      }
    case Redir(sub, file, _) => CutsInside(s, sub);
    case Pipe(l, r) =>
      CutsInside(s, l);
      CutsInside(s, r);
    case List(l, r) =>
      CutsInside(s, l);
      CutsInside(s, r);
    case Back(sub) => CutsInside(s, sub);
  }

  lemma {:induction false} WordsWhole(s: string, c: Node, w: Span)
    requires Whole(s, c) && HasWord(c, w)
    ensures WholeWord(s, w) && w.eq in Cuts(c)
  {
    match c
    case Exec(args) =>
      var i :| 0 <= i < |args| && args[i] == w;
      assert WholeWord(s, args[i]);
    case Redir(sub, file, _) => if w != file { WordsWhole(s, sub, w); }
    case Pipe(l, r) => if HasWord(l, w) { WordsWhole(s, l, w); } else { WordsWhole(s, r, w); }
    case List(l, r) => if HasWord(l, w) { WordsWhole(s, l, w); } else { WordsWhole(s, r, w); }
    case Back(sub) => WordsWhole(s, sub, w);
  }

  /** nulterminate: a NUL behind every word of the command, and nothing else. */
  method NulTerminate(c: Node, buf: array<char>)
    requires forall x :: x in Cuts(c) ==> 0 <= x < buf.Length
    modifies buf
    ensures forall j :: 0 <= j < buf.Length ==> buf[j] == if j in Cuts(c) then '\0' else old(buf[j])
    decreases c
  {
    match c
    case Exec(args) =>
      for i := 0 to |args|
        invariant forall j :: 0 <= j < buf.Length ==>
          buf[j] == if exists k :: 0 <= k < i && args[k].eq == j then '\0' else old(buf[j])
      {
        assert args[i] in args && args[i].eq in Cuts(c);
        buf[args[i].eq] := '\0';
      }
    case Redir(sub, file, _) =>
      assert Cuts(c) == Cuts(sub) + {file.eq};
      NulTerminate(sub, buf);
      buf[file.eq] := '\0';
    case Pipe(l, r) =>
      assert Cuts(c) == Cuts(l) + Cuts(r);
      NulTerminate(l, buf);
      NulTerminate(r, buf);
    case List(l, r) =>
      assert Cuts(c) == Cuts(l) + Cuts(r);
      NulTerminate(l, buf);
      NulTerminate(r, buf);
    case Back(sub) =>
      assert Cuts(c) == Cuts(sub);
      NulTerminate(sub, buf);
  }

  /** The C string that starts at q. */
  function CString(t: string, q: nat): (w: string)
    requires q <= |t|
    decreases |t| - q
  {
    if q == |t| || t[q] == '\0' then "" else [t[q]] + CString(t, q + 1)
  }

  lemma {:induction false} CStringIs(t: string, q: nat, e: nat)
    requires q <= e < |t| && t[e] == '\0' && forall j :: q <= j < e ==> t[j] != '\0'
    ensures CString(t, q) == t[q..e]
    decreases e - q
  {
    if q < e { CStringIs(t, q + 1, e); }
  }

  /** After nulterminate every word of the command, read as a C string from where it
      starts, is exactly the text of its token: no other word's NUL cuts it. */
  lemma WordsExact(s: string, c: Node, t: string, w: Span)
    requires Whole(s, c) && HasWord(c, w) && (forall j :: 0 <= j < |s| ==> s[j] != '\0')
    requires |t| == |s| + 1
    requires forall j :: 0 <= j < |t| ==> t[j] == if j in Cuts(c) || j == |s| then '\0' else s[j]
    ensures 0 <= w.q < |t| && CString(t, w.q) == Text(s, w)
  {
    WordsWhole(s, c, w);
    CutsInside(s, c);
    CStringIs(t, w.q, w.eq);
    assert t[w.q..w.eq] == s[w.q..w.eq];
  }

  /** parsecmd on the buffer that holds the line: the words of the result are left in
      it as C strings. */
  method ParseLineBuffer(s: string, buf: array<char>) returns (ok: bool, c: Node)
    requires Holds(buf, s) && forall j :: 0 <= j < |s| ==> s[j] != '\0'
    modifies buf
    ensures ok <==> PLine(Lex(s, 0)).Ok? && PLine(Lex(s, 0)).rest == []
    ensures ok ==> PLine(Lex(s, 0)).value == TreeOf(s, c)
    ensures ok ==> forall w :: HasWord(c, w) ==>
      0 <= w.q < buf.Length && CString(buf[..], w.q) == Text(s, w)
  {
    hide PLine, Lex, Whole, HasWord, Cuts;
    var parser := new Parser(s);
    ok, c := parser.ParseCmd();
    if !ok { return; }
    CutsInside(s, c);
    assert forall j :: 0 <= j < |s| ==> buf[j] == buf[..|s|][j] == s[j];
    NulTerminate(c, buf);
    forall w | HasWord(c, w) ensures 0 <= w.q < buf.Length && CString(buf[..], w.q) == Text(s, w) {
      WordsExact(s, c, buf[..], w);
    }
  }

  /** The tree runcmd finds: every word is the C string that starts where the parser
      left its pointer. */
  function TreeIn(mem: string, c: Node): (t: Tree) {
    match c
    case Exec(args) => Exec(StringsIn(mem, args))
    case Redir(sub, file, kind) => Redir(TreeIn(mem, sub), StringIn(mem, file), kind)
    case Pipe(l, r) => Pipe(TreeIn(mem, l), TreeIn(mem, r))
    case List(l, r) => List(TreeIn(mem, l), TreeIn(mem, r))
    case Back(sub) => Back(TreeIn(mem, sub))
  }

  function StringIn(mem: string, w: Span): (t: string) {
    if 0 <= w.q <= |mem| then CString(mem, w.q) else ""
  }

  function StringsIn(mem: string, ws: seq<Span>): (ts: seq<string>) {
    if ws == [] then [] else StringsIn(mem, ws[..|ws| - 1]) + [StringIn(mem, ws[|ws| - 1])]
  }

  lemma {:induction false} StringsSame(s: string, mem: string, ws: seq<Span>)
    requires forall w :: w in ws ==> StringIn(mem, w) == Text(s, w)
    ensures StringsIn(mem, ws) == Texts(s, ws)
  {
    if ws != [] { StringsSame(s, mem, ws[..|ws| - 1]); }
  }

  lemma {:induction false} TreeSame(s: string, mem: string, c: Node)
    requires forall w :: HasWord(c, w) ==> StringIn(mem, w) == Text(s, w)
    ensures TreeIn(mem, c) == TreeOf(s, c)
  {
    hide StringIn, Text;
    match c
    case Exec(args) =>
      forall w | w in args ensures StringIn(mem, w) == Text(s, w) { assert HasWord(c, w); }
      StringsSame(s, mem, args);
    case Redir(sub, file, _) =>
      assert HasWord(c, file);
      forall w | HasWord(sub, w) ensures StringIn(mem, w) == Text(s, w) { assert HasWord(c, w); }
      TreeSame(s, mem, sub);
    case Pipe(l, r) =>
      forall w | HasWord(l, w) || HasWord(r, w) ensures StringIn(mem, w) == Text(s, w) { assert HasWord(c, w); }
      TreeSame(s, mem, l);
      TreeSame(s, mem, r);
    case List(l, r) =>
      forall w | HasWord(l, w) || HasWord(r, w) ensures StringIn(mem, w) == Text(s, w) { assert HasWord(c, w); }
      TreeSame(s, mem, l);
      TreeSame(s, mem, r);
    case Back(sub) =>
      forall w | HasWord(sub, w) ensures StringIn(mem, w) == Text(s, w) { assert HasWord(c, w); }
      TreeSame(s, mem, sub);
  }

  /** The round trip on the line's own buffer: a command tree written out with any white
      space, parsed and cut is there again, word for word, for runcmd to read. */
  method ParseRendered(t: Tree, ghost gaps: seq<string>, buf: array<char>) returns (ok: bool, c: Node)
    requires GoodTree(t) && Spacing(gaps, RLine(t)) && Holds(buf, Spaced(gaps, RLine(t)))
    requires forall j :: 0 <= j < buf.Length - 1 ==> buf[j] != '\0'
    modifies buf
    ensures ok && TreeIn(buf[..], c) == t
  {
    hide GoodTree, PLine, Lex, Spaced, RLine, HasWord;
    ghost var s := Spaced(gaps, RLine(t));
    RenderParse(t, gaps);
    assert forall j :: 0 <= j < |s| ==> s[j] == buf[..|s|][j] == buf[j];
    ok, c := ParseLineBuffer(buf[..buf.Length - 1], buf);
    assert forall w :: HasWord(c, w) ==> StringIn(buf[..], w) == Text(s, w);
    TreeSame(s, buf[..], c);
  }

  /** The method's result is what the grammar says. */
  ghost predicate Agrees(s: string, p: Parse<Tree>, ok: bool, c: Node, ahead: seq<Token>) {
    ok == p.Ok? && (ok ==> p == Ok(TreeOf(s, c), ahead) && Whole(s, c))
  }

  /** A job with the &s that follow it, and what is behind them. */
  function JobsLeft(t: Tree, ts: seq<Token>): (r: (Tree, seq<Token>)) {
    (Backs(t, Amps(ts)), ts[Amps(ts)..])
  }

  lemma {:induction false} BackFirst(t: Tree, n: nat)
    ensures Backs(Back(t), n) == Backs(t, n + 1)
  {
    if n > 0 { BackFirst(t, n - 1); }
  }

  lemma AmpCases(t: Tree, ts: seq<Token>)
    ensures At(ts, '&') ==> JobsLeft(Back(t), ts[1..]) == JobsLeft(t, ts)
    ensures !At(ts, '&') ==> JobsLeft(t, ts) == (t, ts)
  {
    if At(ts, '&') {
      BackFirst(t, Amps(ts[1..]));
      assert ts[1..][Amps(ts[1..])..] == ts[Amps(ts)..];
    } else {
      assert ts[0..] == ts;
    }
  }

  lemma BlockFails(ts: seq<Token>, line: seq<Token>, p: Parse<seq<Redirection<string>>>)
    requires At(ts, '(')
    requires PLine(ts[1..]).Fail? || (PLine(ts[1..]).rest == line && (!At(line, ')') || (p == PRedirs(line[1..]) && p.Fail?)))
    ensures PExec(ts) == Fail
  {
    hide PLine, PRedirs;
  }

  lemma SimpleFails(ts: seq<Token>, mid: seq<Token>)
    requires !At(ts, '(')
    requires PRedirs(ts).Fail? || (PRedirs(ts).rest == mid && PArgs(mid, 0).Fail?)
    ensures PExec(ts) == Fail
  {
    hide PRedirs, PArgs;
  }

  lemma {:induction false} RedirsPlus(s: string, a: seq<Redirection<Span>>, b: seq<Redirection<Span>>)
    requires WholeRedirs(s, a) && WholeRedirs(s, b)
    ensures RedirsOf(s, a + b) == RedirsOf(s, a) + RedirsOf(s, b) && WholeRedirs(s, a + b)
    decreases |b|
  {
    hide WholeWord;
    if b == [] {
      assert a + b == a;
    } else {
      var b1 := b[..|b| - 1];
      RedirsPlus(s, a, b1);
      assert (a + b)[..|a + b| - 1] == a + b1;
      assert RedirsOf(s, a + b) == RedirsOf(s, a + b1) + [RedirsOf(s, b)[|b| - 1]];
    }
  }

  /** Arguments found so far, then those of the rest. */
  function MoreArgs(
    args: seq<string>, rs: seq<Redirection<string>>, p: Parse<(seq<string>, seq<Redirection<string>>)>)
    : (r: Parse<(seq<string>, seq<Redirection<string>>)>)
  {
    if p.Fail? then Fail else Ok((args + p.value.0, rs + p.value.1), p.rest)
  }

  lemma NoArgsYet(s: string, p: Parse<(seq<string>, seq<Redirection<string>>)>)
    ensures MoreArgs(Texts(s, []), RedirsOf(s, []), p) == p && WholeRedirs(s, [])
  {
    if p.Ok? { assert [] + p.value.0 == p.value.0 && [] + p.value.1 == p.value.1; }
  }

  lemma FailStays(args: seq<string>, rs: seq<Redirection<string>>)
    ensures MoreArgs(args, rs, Fail) == Fail
  {
  }

  lemma ArgCases(ts: seq<Token>, n: nat)
    ensures ts != [] && ts[0].Sym? && Lead(ts[0]) in "|)&;" <==> AtStop(ts)
    ensures ts != [] && !AtStop(ts) && (!ts[0].Word? || n + 1 >= MAXARGS) ==> PArgs(ts, n) == Fail
  {
  }

  lemma StopArgs(args: seq<string>, rs: seq<Redirection<string>>, ts: seq<Token>, n: nat)
    requires ts == [] || AtStop(ts)
    ensures MoreArgs(args, rs, PArgs(ts, n)) == Ok((args, rs), ts)
  {
    assert args + [] == args && rs + [] == rs;
  }

  lemma OneArg(
    s: string, args: seq<Span>, rs: seq<Redirection<Span>>, ts: seq<Token>, n: nat, w: Span,
    mid: seq<Token>, found: seq<Redirection<Span>>, more: bool, rest: seq<Token>)
    requires ts != [] && !AtStop(ts) && ts[0].Word? && n + 1 < MAXARGS && Text(s, w) == ts[0].text && mid == ts[1..]
    requires more == PRedirs(mid).Ok? && (more ==> PRedirs(mid) == Ok(RedirsOf(s, found), rest))
    requires WholeRedirs(s, rs) && WholeRedirs(s, found)
    ensures !more ==> PArgs(ts, n) == Fail
    ensures more ==> WholeRedirs(s, rs + found)
    ensures more ==>
      MoreArgs(Texts(s, args + [w]), RedirsOf(s, rs + found), PArgs(rest, n + 1))
      == MoreArgs(Texts(s, args), RedirsOf(s, rs), PArgs(ts, n))
  {
    hide PRedirs, Text, WholeWord;
    if more {
      RedirsPlus(s, rs, found);
      assert (args + [w])[..|args|] == args;
      var p := PArgs(rest, n + 1);
      if p.Ok? {
        PArgsStep(ts, n, RedirsOf(s, found), rest, p.value.0, p.value.1, p.rest);
        assert Texts(s, args) + ([ts[0].text] + p.value.0) == Texts(s, args + [w]) + p.value.0;
        assert RedirsOf(s, rs) + (RedirsOf(s, found) + p.value.1) == (RedirsOf(s, rs) + RedirsOf(s, found)) + p.value.1;
      }
    }
  }

  /** Redirections found so far, then those of the rest. */
  function MoreRedirs(
    rs: seq<Redirection<string>>, p: Parse<seq<Redirection<string>>>): (r: Parse<seq<Redirection<string>>>)
  {
    if p.Fail? then Fail else Ok(rs + p.value, p.rest)
  }

  lemma NoneYet(p: Parse<seq<Redirection<string>>>)
    ensures MoreRedirs([], p) == p
  {
    if p.Ok? { assert [] + p.value == p.value; }
  }

  lemma SymbolsOk()
    ensures IsSymbol('<') && IsSymbol('>') && IsSymbol('|') && IsSymbol('(') && IsSymbol(')') && IsSymbol('&') && IsSymbol(';')
    ensures !IsSymbol('a') && !IsSymbol('\0')
  {
  }

  lemma RedirCases(ts: seq<Token>)
    requires AtRedir(ts)
    ensures |ts| < 2 || !ts[1].Word? ==> PRedirs(ts) == Fail
    ensures |ts| >= 2 ==> ts[1..][1..] == ts[2..] && ts[1..][0] == ts[1]
    ensures |ts| == 1 ==> ts[1..] == []
  {
  }

  lemma OneRedir(s: string, rs: seq<Redirection<Span>>, ts: seq<Token>, w: Span, rest: seq<Token>)
    requires AtRedir(ts) && |ts| >= 2 && ts[1].Word? && Text(s, w) == ts[1].text && rest == ts[2..]
    ensures var rs1 := rs + [Redirection(w, KindOf(ts[0].c))];
      MoreRedirs(RedirsOf(s, rs1), PRedirs(rest)) == MoreRedirs(RedirsOf(s, rs), PRedirs(ts))
  {
    hide Text;
    var rs1 := rs + [Redirection(w, KindOf(ts[0].c))];
    assert rs1[..|rs1| - 1] == rs;
    var one := [Redirection(ts[1].text, KindOf(ts[0].c))];
    assert RedirsOf(s, rs1) == RedirsOf(s, rs) + one;
    var p := PRedirs(rest);
    if p.Ok? { assert RedirsOf(s, rs) + (one + p.value) == (RedirsOf(s, rs) + one) + p.value; }
  }
}
