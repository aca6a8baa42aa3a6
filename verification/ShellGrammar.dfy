/** The command language of sh.c on tokens: a parser that follows the grammar, a
    canonical rendering, and the proof that parsing inverts it. */
module ShellGrammar {
  const MAXARGS: nat := 10

  datatype Kind = In | Out | Append

  /** Commands over words of type W. */
  datatype Cmd<W> =
    | Exec(args: seq<W>)
    | Redir(sub: Cmd<W>, file: W, kind: Kind)
    | Pipe(left: Cmd<W>, right: Cmd<W>)
    | List(left: Cmd<W>, right: Cmd<W>)
    | Back(sub: Cmd<W>)

  type Tree = Cmd<string>

  /** A word, or one of | ( ) ; & < > and + for >>. */
  datatype Token = Word(text: string) | Sym(c: char)

  datatype Parse<T> = Fail | Ok(value: T, rest: seq<Token>)

  datatype Redirection<W> = Redirection(file: W, kind: Kind)

  predicate At(ts: seq<Token>, c: char) {
    ts != [] && ts[0] == Sym(c)
  }

  predicate AtRedir(ts: seq<Token>) {
    At(ts, '<') || At(ts, '>') || At(ts, '+')
  }

  /** What ends the arguments of a simple command. */
  predicate AtStop(ts: seq<Token>) {
    At(ts, '|') || At(ts, ')') || At(ts, '&') || At(ts, ';')
  }

  function KindOf(c: char): (k: Kind) {
    if c == '<' then In else if c == '>' then Out else Append
  }

  /** parseredirs wraps later redirections around earlier ones. */
  function Wrap<W>(c: Cmd<W>, rs: seq<Redirection<W>>): (r: Cmd<W>)
    decreases |rs|
  {
    if rs == [] then c
    else Redir(Wrap(c, rs[..|rs| - 1]), rs[|rs| - 1].file, rs[|rs| - 1].kind)
  }

  // ---- the grammar ----

  function PRedirs(ts: seq<Token>): (r: Parse<seq<Redirection<string>>>)
    ensures r.Ok? ==> |r.rest| <= |ts| && !AtRedir(r.rest)
    decreases |ts|
  {
    if !AtRedir(ts) then Ok([], ts)
    else if |ts| < 2 || !ts[1].Word? then Fail
    else
      var r := PRedirs(ts[2..]);
      if r.Fail? then Fail else Ok([Redirection(ts[1].text, KindOf(ts[0].c))] + r.value, r.rest)
  }

  /** Words and redirections up to a stop, with n words before. */
  function PArgs(ts: seq<Token>, n: nat): (r: Parse<(seq<string>, seq<Redirection<string>>)>)
    ensures r.Ok? ==> |r.rest| <= |ts| && n + |r.value.0| <= (if n < MAXARGS then MAXARGS - 1 else n)
    decreases |ts|
  {
    if AtStop(ts) || ts == [] then Ok(([], []), ts)
    else if !ts[0].Word? || n + 1 >= MAXARGS then Fail
    else
      var p := PRedirs(ts[1..]);
      if p.Fail? then Fail else
      var r := PArgs(p.rest, n + 1);
      if r.Fail? then Fail else Ok(([ts[0].text] + r.value.0, p.value + r.value.1), r.rest)
  }

  function PExec(ts: seq<Token>): (r: Parse<Tree>)
    ensures r.Ok? ==> |r.rest| <= |ts|
    decreases |ts|, 0
  {
    if At(ts, '(') then
      var c := PLine(ts[1..]);
      if c.Fail? || !At(c.rest, ')') then Fail else
      var p := PRedirs(c.rest[1..]);
      if p.Fail? then Fail else Ok(Wrap(c.value, p.value), p.rest)
    else
      var p := PRedirs(ts);
      if p.Fail? then Fail else
      var r := PArgs(p.rest, 0);
      if r.Fail? then Fail else Ok(Wrap(Exec(r.value.0), p.value + r.value.1), r.rest)
  }

  function PPipe(ts: seq<Token>): (r: Parse<Tree>)
    ensures r.Ok? ==> |r.rest| <= |ts|
    decreases |ts|, 1
  {
    var c := PExec(ts);
    if c.Fail? || !At(c.rest, '|') then c
    else
      var d := PPipe(c.rest[1..]);
      if d.Fail? then Fail else Ok(Pipe(c.value, d.value), d.rest)
  }

  /** How many & the tokens begin with. */
  function Amps(ts: seq<Token>): (n: nat)
    ensures n <= |ts| && !At(ts[n..], '&') && forall i :: 0 <= i < n ==> ts[i] == Sym('&')
    decreases |ts|
  {
    if At(ts, '&') then
      var n := Amps(ts[1..]);
      assert ts[1..][n..] == ts[n + 1..];
      n + 1
    else 0
  }

  function Backs<W>(c: Cmd<W>, n: nat): (r: Cmd<W>) {
    if n == 0 then c else Back(Backs(c, n - 1))
  }

  function PLine(ts: seq<Token>): (r: Parse<Tree>)
    ensures r.Ok? ==> |r.rest| <= |ts|
    decreases |ts|, 2
  {
    var c := PPipe(ts);
    if c.Fail? then Fail else
    var n := Amps(c.rest);
    var b, rest := Backs(c.value, n), c.rest[n..];
    if !At(rest, ';') then Ok(b, rest)
    else
      var d := PLine(rest[1..]);
      if d.Fail? then Fail else Ok(List(b, d.value), d.rest)
  }

  // ---- the rendering ----

  function Words(args: seq<string>): (ts: seq<Token>) {
    if args == [] then [] else [Word(args[0])] + Words(args[1..])
  }

  function RedirSym(k: Kind): (c: char) {
    match k
    case In => '<'
    case Out => '>'
    case Append => '+'
  }

  /** Orders the four rendering levels for one tree: each kind of node is rendered at
      its own level, and the levels below it bracket it. */
  function Rank(t: Tree, level: nat): (n: nat) {
    match t
    case Exec(_) => level
    case Redir(_, _, _) => level
    case Pipe(_, _) => (level + 3) % 4
    case Back(_) => (level + 2) % 4
    case List(_, _) => (level + 1) % 4
  }

  /** A simple command or a bracketed one, with its redirections behind it. */
  function RExec(t: Tree): (ts: seq<Token>)
    decreases t, Rank(t, 0)
  {
    match t
    case Exec(args) => Words(args)
    case Redir(sub, file, kind) => RExec(sub) + [Sym(RedirSym(kind)), Word(file)]
    case Pipe(_, _) => [Sym('(')] + RLine(t) + [Sym(')')]
    case List(_, _) => [Sym('(')] + RLine(t) + [Sym(')')]
    case Back(_) => [Sym('(')] + RLine(t) + [Sym(')')]
  }

  function RPipe(t: Tree): (ts: seq<Token>)
    decreases t, Rank(t, 1)
  {
    match t
    case Pipe(l, r) => RExec(l) + [Sym('|')] + RPipe(r)
    case _ => RExec(t)
  }

  function RBack(t: Tree): (ts: seq<Token>)
    decreases t, Rank(t, 2)
  {
    match t
    case Back(sub) => RBack(sub) + [Sym('&')]
    case _ => RPipe(t)
  }

  function RLine(t: Tree): (ts: seq<Token>)
    decreases t, Rank(t, 3)
  {
    match t
    case List(l, r) => RBack(l) + [Sym(';')] + RLine(r)
    case _ => RBack(t)
  }

  // ---- parsing inverts rendering ----

  /** The shell takes at most MAXARGS - 1 arguments. */
  predicate FewArgs(t: Tree) {
    match t
    case Exec(args) => |args| < MAXARGS
    case Redir(sub, _, _) => FewArgs(sub)
    case Pipe(l, r) => FewArgs(l) && FewArgs(r)
    case List(l, r) => FewArgs(l) && FewArgs(r)
    case Back(sub) => FewArgs(sub)
  }

  /** A command without its outer redirections, and those. */
  function Base(t: Tree): (b: Tree)
    ensures !b.Redir? && (b == t || (t.Redir? && b < t)) && (FewArgs(t) ==> FewArgs(b))
  {
    if t.Redir? then Base(t.sub) else t
  }

  function Redirs(t: Tree): (rs: seq<Redirection<string>>) {
    if t.Redir? then Redirs(t.sub) + [Redirection(t.file, t.kind)] else []
  }

  function RTokens(rs: seq<Redirection<string>>): (ts: seq<Token>)
    decreases |rs|
  {
    if rs == [] then []
    else RTokens(rs[..|rs| - 1]) + [Sym(RedirSym(rs[|rs| - 1].kind)), Word(rs[|rs| - 1].file)]
  }

  lemma {:induction false} Unwrap(t: Tree)
    ensures t == Wrap(Base(t), Redirs(t)) && RExec(t) == RExec(Base(t)) + RTokens(Redirs(t))
  {
    if t.Redir? {
      Unwrap(t.sub);
      var rs := Redirs(t);
      assert rs[..|rs| - 1] == Redirs(t.sub);
    }
  }

  lemma {:induction false} RTokensFront(rs: seq<Redirection<string>>)
    requires rs != []
    ensures RTokens(rs) == [Sym(RedirSym(rs[0].kind)), Word(rs[0].file)] + RTokens(rs[1..])
    decreases |rs|
  {
    if |rs| > 1 {
      var init := rs[..|rs| - 1];
      RTokensFront(init);
      assert init[1..] == rs[1..][..|rs| - 2];
    }
  }

  lemma PRedirsStep(ts: seq<Token>, rs: seq<Redirection<string>>, rest: seq<Token>)
    requires AtRedir(ts) && |ts| >= 2 && ts[1].Word? && PRedirs(ts[2..]) == Ok(rs, rest)
    ensures PRedirs(ts) == Ok([Redirection(ts[1].text, KindOf(ts[0].c))] + rs, rest)
  {
  }

  lemma PRedirsStop(ts: seq<Token>)
    requires !AtRedir(ts)
    ensures PRedirs(ts) == Ok([], ts)
  {
  }

  lemma {:induction false} RedirsBack(rs: seq<Redirection<string>>, rest: seq<Token>)
    requires !AtRedir(rest)
    ensures PRedirs(RTokens(rs) + rest) == Ok(rs, rest)
    decreases |rs|
  {
    hide PRedirs;
    if rs == [] {
      assert RTokens(rs) + rest == rest;
      PRedirsStop(rest);
    } else {
      RTokensFront(rs);
      hide RTokens;
      RedirsBack(rs[1..], rest);
      var ts := RTokens(rs) + rest;
      assert ts[2..] == RTokens(rs[1..]) + rest;
      PRedirsStep(ts, rs[1..], rest);
      assert Redirection(ts[1].text, KindOf(ts[0].c)) == rs[0];
      assert [rs[0]] + rs[1..] == rs;
    }
  }

  ghost predicate Ends(rest: seq<Token>) {
    rest == [] || AtStop(rest)
  }

  lemma PArgsStep(
    ts: seq<Token>, n: nat, rs: seq<Redirection<string>>, rest: seq<Token>,
    args: seq<string>, rs1: seq<Redirection<string>>, rest1: seq<Token>)
    requires ts != [] && ts[0].Word? && n + 1 < MAXARGS
    requires PRedirs(ts[1..]) == Ok(rs, rest) && PArgs(rest, n + 1) == Ok((args, rs1), rest1)
    ensures PArgs(ts, n) == Ok(([ts[0].text] + args, rs + rs1), rest1)
  {
    hide PRedirs;
  }

  lemma PArgsStop(ts: seq<Token>, n: nat)
    requires Ends(ts)
    ensures PArgs(ts, n) == Ok(([], []), ts)
  {
  }

  lemma {:induction false} ArgsBack(args: seq<string>, rs: seq<Redirection<string>>, rest: seq<Token>, n: nat)
    requires Ends(rest) && n + |args| < MAXARGS && (args == [] ==> rs == [])
    ensures PArgs(Words(args) + RTokens(rs) + rest, n) == Ok((args, rs), rest)
    decreases |args|
  {
    hide PArgs, PRedirs, RTokens;
    var ts := Words(args) + RTokens(rs) + rest;
    NoTokens();
    if args == [] {
      assert ts == rest;
      PArgsStop(rest, n);
    } else if |args| == 1 {
      assert Words(args) == [Word(args[0])];
      assert ts[1..] == RTokens(rs) + rest;
      RedirsBack(rs, rest);
      PArgsStop(rest, n + 1);
      PArgsStep(ts, n, rs, rest, [], [], rest);
      assert [args[0]] + [] == args && rs + [] == rs;
    } else {
      var tail := Words(args[1..]) + RTokens(rs) + rest;
      assert ts[1..] == tail;
      assert tail[0] == Word(args[1]);
      PRedirsStop(tail);
      ArgsBack(args[1..], rs, rest, n + 1);
      PArgsStep(ts, n, [], tail, args[1..], rs, rest);
      assert [args[0]] + args[1..] == args && [] + rs == rs;
    }
  }

  lemma NoTokens()
    ensures RTokens([]) == [] && Words([]) == []
  {
  }

  lemma PExecSimple(
    ts: seq<Token>, rs: seq<Redirection<string>>, rest: seq<Token>,
    args: seq<string>, rs1: seq<Redirection<string>>, rest1: seq<Token>)
    requires !At(ts, '(') && PRedirs(ts) == Ok(rs, rest) && PArgs(rest, 0) == Ok((args, rs1), rest1)
    ensures PExec(ts) == Ok(Wrap(Exec(args), rs + rs1), rest1)
  {
    hide PRedirs, PArgs, PLine;
  }

  lemma SimpleBack(args: seq<string>, rs: seq<Redirection<string>>, rest: seq<Token>)
    requires Ends(rest) && |args| < MAXARGS
    ensures PExec(Words(args) + RTokens(rs) + rest) == Ok(Wrap(Exec(args), rs), rest)
  {
    hide PArgs, PRedirs, PExec, RTokens;
    var ts := Words(args) + RTokens(rs) + rest;
    NoTokens();
    if args == [] {
      assert ts == RTokens(rs) + rest;
      if rs != [] { RTokensFront(rs); }
      RedirsBack(rs, rest);
      PArgsStop(rest, 0);
      PExecSimple(ts, rs, rest, [], [], rest);
      assert rs + [] == rs;
    } else {
      assert ts[0] == Word(args[0]);
      PRedirsStop(ts);
      ArgsBack(args, rs, rest, 0);
      PExecSimple(ts, [], ts, args, rs, rest);
      assert [] + rs == rs;
    }
  }

  lemma PExecBlock(ts: seq<Token>, c: Tree, rest: seq<Token>, rs: seq<Redirection<string>>, rest1: seq<Token>)
    requires At(ts, '(') && PLine(ts[1..]) == Ok(c, rest) && At(rest, ')') && PRedirs(rest[1..]) == Ok(rs, rest1)
    ensures PExec(ts) == Ok(Wrap(c, rs), rest1)
  {
    hide PRedirs, PLine;
  }

  lemma BlockBack(b: Tree, rs: seq<Redirection<string>>, rest: seq<Token>)
    requires Ends(rest) && PLine(RLine(b) + ([Sym(')')] + RTokens(rs) + rest)) == Ok(b, [Sym(')')] + RTokens(rs) + rest)
    ensures PExec([Sym('(')] + RLine(b) + [Sym(')')] + RTokens(rs) + rest) == Ok(Wrap(b, rs), rest)
  {
    hide PRedirs, PLine, PExec, RLine, RTokens, Wrap;
    var ts := [Sym('(')] + RLine(b) + [Sym(')')] + RTokens(rs) + rest;
    var after := [Sym(')')] + RTokens(rs) + rest;
    assert ts[1..] == RLine(b) + after;
    assert after[1..] == RTokens(rs) + rest;
    RedirsBack(rs, rest);
    PExecBlock(ts, b, after, rs, rest);
  }

  lemma {:induction false} ExecBack(t: Tree, rest: seq<Token>)
    requires Ends(rest) && FewArgs(t)
    ensures PExec(RExec(t) + rest) == Ok(t, rest)
    decreases t, Rank(t, 0)
  {
    hide PExec, PLine, RTokens, RLine, Wrap;
    Unwrap(t);
    var b, rs := Base(t), Redirs(t);
    if b.Exec? {
      SimpleBack(b.args, rs, rest);
      assert RExec(t) + rest == Words(b.args) + RTokens(rs) + rest;
    } else {
      LineBack(b, [Sym(')')] + RTokens(rs) + rest);
      BlockBack(b, rs, rest);
      assert RExec(t) + rest == [Sym('(')] + RLine(b) + [Sym(')')] + RTokens(rs) + rest;
    }
  }

  lemma {:induction false} PipeBack(t: Tree, rest: seq<Token>)
    requires Ends(rest) && !At(rest, '|') && FewArgs(t)
    ensures PPipe(RPipe(t) + rest) == Ok(t, rest)
    decreases t, Rank(t, 1)
  {
    hide PExec, PPipe, RExec;
    if t.Pipe? {
      var mid := [Sym('|')] + RPipe(t.right) + rest;
      ExecBack(t.left, mid);
      PipeBack(t.right, rest);
      assert RPipe(t) + rest == RExec(t.left) + mid;
      assert mid[1..] == RPipe(t.right) + rest;
      PPipeStep(RPipe(t) + rest, t.left, mid, t.right, rest);
    } else {
      ExecBack(t, rest);
      PPipeStop(RPipe(t) + rest, t, rest);
    }
  }

  lemma PPipeStep(ts: seq<Token>, c: Tree, rest: seq<Token>, d: Tree, rest1: seq<Token>)
    requires PExec(ts) == Ok(c, rest) && At(rest, '|') && PPipe(rest[1..]) == Ok(d, rest1)
    ensures PPipe(ts) == Ok(Pipe(c, d), rest1)
  {
    hide PExec;
  }

  lemma PPipeStop(ts: seq<Token>, c: Tree, rest: seq<Token>)
    requires PExec(ts) == Ok(c, rest) && !At(rest, '|')
    ensures PPipe(ts) == Ok(c, rest)
  {
    hide PExec;
  }

  /** A command without its outer &s, and how many there are. */
  function Under(t: Tree): (u: Tree)
    ensures !u.Back? && (u == t || (t.Back? && u < t)) && (FewArgs(t) ==> FewArgs(u))
  {
    if t.Back? then Under(t.sub) else t
  }

  function Depth(t: Tree): (n: nat) {
    if t.Back? then Depth(t.sub) + 1 else 0
  }

  function Amp(n: nat): (ts: seq<Token>)
    ensures |ts| == n && forall i :: 0 <= i < n ==> ts[i] == Sym('&')
  {
    seq(n, _ => Sym('&'))
  }

  lemma {:induction false} Unback(t: Tree)
    ensures t == Backs(Under(t), Depth(t)) && RBack(t) == RPipe(Under(t)) + Amp(Depth(t))
  {
    if t.Back? {
      Unback(t.sub);
      assert Amp(Depth(t)) == Amp(Depth(t.sub)) + [Sym('&')];
    } else {
      assert RPipe(t) + Amp(0) == RPipe(t);
    }
  }

  lemma {:induction false} AmpsBack(n: nat, rest: seq<Token>)
    requires !At(rest, '&')
    ensures Amps(Amp(n) + rest) == n && (Amp(n) + rest)[n..] == rest
  {
    if n > 0 {
      AmpsBack(n - 1, rest);
      assert (Amp(n) + rest)[1..] == Amp(n - 1) + rest;
    } else {
      assert Amp(0) + rest == rest;
    }
  }

  /** The part of a line before ; or the end. */
  lemma JobBack(b: Tree, rest: seq<Token>)
    requires Ends(rest) && !At(rest, '|') && !At(rest, '&')
    requires PPipe(RPipe(Under(b)) + (Amp(Depth(b)) + rest)) == Ok(Under(b), Amp(Depth(b)) + rest)
    ensures Job(RBack(b) + rest, b, rest)
  {
    hide PPipe, RPipe, RBack, Amps, Amp;
    Unback(b);
    AmpsBack(Depth(b), rest);
    assert RBack(b) + rest == RPipe(Under(b)) + (Amp(Depth(b)) + rest);
  }

  lemma {:induction false} LineBack(t: Tree, rest: seq<Token>)
    requires (rest == [] || At(rest, ')')) && FewArgs(t)
    ensures PLine(RLine(t) + rest) == Ok(t, rest)
    decreases t, Rank(t, 3)
  {
    hide PPipe, PLine, RBack, Amps, Backs, RPipe;
    if t.List? {
      var mid := [Sym(';')] + RLine(t.right) + rest;
      AmpStart(Depth(t.left), mid);
      PipeBack(Under(t.left), Amp(Depth(t.left)) + mid);
      JobBack(t.left, mid);
      LineBack(t.right, rest);
      assert RLine(t) + rest == RBack(t.left) + mid;
      assert mid[1..] == RLine(t.right) + rest;
      PLineStep(RLine(t) + rest, t.left, mid, t.right, rest);
    } else {
      AmpStart(Depth(t), rest);
      PipeBack(Under(t), Amp(Depth(t)) + rest);
      JobBack(t, rest);
      PLineStop(RLine(t) + rest, t, rest);
    }
  }

  lemma AmpStart(n: nat, rest: seq<Token>)
    requires Ends(rest) && !At(rest, '|')
    ensures Ends(Amp(n) + rest) && !At(Amp(n) + rest, '|')
  {
    if n == 0 { assert Amp(0) + rest == rest; } else { assert (Amp(n) + rest)[0] == Sym('&'); }
  }

  /** The tokens begin with job b, and rest follows it. */
  ghost predicate Job(ts: seq<Token>, b: Tree, rest: seq<Token>) {
    var c := PPipe(ts);
    c.Ok? && Backs(c.value, Amps(c.rest)) == b && c.rest[Amps(c.rest)..] == rest
  }

  lemma PLineStep(ts: seq<Token>, b: Tree, rest: seq<Token>, d: Tree, rest1: seq<Token>)
    requires Job(ts, b, rest) && At(rest, ';') && PLine(rest[1..]) == Ok(d, rest1)
    ensures PLine(ts) == Ok(List(b, d), rest1)
  {
    hide PPipe, Backs, Amps;
  }

  lemma PLineStop(ts: seq<Token>, b: Tree, rest: seq<Token>)
    requires Job(ts, b, rest) && !At(rest, ';')
    ensures PLine(ts) == Ok(b, rest)
  {
    hide PPipe, Backs, Amps;
  }
}
