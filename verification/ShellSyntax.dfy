/** The concrete syntax of sh.c, defined without the parser: how commands may be
    written, with redirections anywhere among the arguments and brackets anywhere, and
    what they mean.  The grammar accepts exactly these and gives them this meaning. */
module ShellSyntax {
  import opened ShellGrammar
  import opened ShellLexer

  /** An argument with the redirections that follow it. */
  datatype Part = Part(arg: string, rs: seq<Redirection<string>>)

  datatype Item =
    | Simple(pre: seq<Redirection<string>>, parts: seq<Part>)
    | Block(body: Line, rs: seq<Redirection<string>>)

  datatype Pipeline = One(item: Item) | Piped(item: Item, rest: Pipeline)

  /** Pipelines with their &s, separated by semicolons. */
  datatype Line = Last(pipe: Pipeline, amps: nat) | Then(pipe: Pipeline, amps: nat, rest: Line)

  // ---- how they are written ----

  function TParts(parts: seq<Part>): (ts: seq<Token>) {
    if parts == [] then [] else [Word(parts[0].arg)] + RTokens(parts[0].rs) + TParts(parts[1..])
  }

  function TItem(i: Item): (ts: seq<Token>) {
    match i
    case Simple(pre, parts) => RTokens(pre) + TParts(parts)
    case Block(body, rs) => [Sym('(')] + TLine(body) + [Sym(')')] + RTokens(rs)
  }

  function TPipe(p: Pipeline): (ts: seq<Token>) {
    match p
    case One(i) => TItem(i)
    case Piped(i, rest) => TItem(i) + [Sym('|')] + TPipe(rest)
  }

  function TLine(l: Line): (ts: seq<Token>) {
    match l
    case Last(p, n) => TPipe(p) + Amp(n)
    case Then(p, n, rest) => TPipe(p) + Amp(n) + [Sym(';')] + TLine(rest)
  }

  // ---- what they mean ----

  function Args(parts: seq<Part>): (a: seq<string>)
    ensures |a| == |parts|
  {
    if parts == [] then [] else [parts[0].arg] + Args(parts[1..])
  }

  /** All redirections among the arguments, in order. */
  function Flat(parts: seq<Part>): (rs: seq<Redirection<string>>) {
    if parts == [] then [] else parts[0].rs + Flat(parts[1..])
  }

  function MItem(i: Item): (t: Tree) {
    match i
    case Simple(pre, parts) => Wrap(Exec(Args(parts)), pre + Flat(parts))
    case Block(body, rs) => Wrap(MLine(body), rs)
  }

  function MPipe(p: Pipeline): (t: Tree) {
    match p
    case One(i) => MItem(i)
    case Piped(i, rest) => Pipe(MItem(i), MPipe(rest))
  }

  function MLine(l: Line): (t: Tree) {
    match l
    case Last(p, n) => Backs(MPipe(p), n)
    case Then(p, n, rest) => List(Backs(MPipe(p), n), MLine(rest))
  }

  // ---- the one limit: fewer than MAXARGS arguments ----

  predicate FitsItem(i: Item) {
    match i
    case Simple(_, parts) => |parts| < MAXARGS
    case Block(body, _) => FitsLine(body)
  }

  predicate FitsPipe(p: Pipeline) {
    match p
    case One(i) => FitsItem(i)
    case Piped(i, rest) => FitsItem(i) && FitsPipe(rest)
  }

  predicate FitsLine(l: Line) {
    match l
    case Last(p, _) => FitsPipe(p)
    case Then(p, _, rest) => FitsPipe(p) && FitsLine(rest)
  }

  // ---- whatever is written is parsed as what it means ----

  lemma PartsFront(first: Part, more: seq<Part>)
    ensures var parts := [first] + more;
      && TParts(parts) == [Word(first.arg)] + RTokens(first.rs) + TParts(more)
      && Args(parts) == [first.arg] + Args(more) && Flat(parts) == first.rs + Flat(more)
  {
    assert ([first] + more)[1..] == more;
  }

  lemma NoParts(ts: seq<Token>)
    ensures TParts([]) + ts == ts && Args([]) == [] && Flat([]) == []
  {
  }

  lemma FirstPart(first: Part, more: seq<Part>, rest: seq<Token>)
    ensures var ts := TParts([first] + more) + rest;
      ts != [] && ts[0] == Word(first.arg) && ts[1..] == RTokens(first.rs) + (TParts(more) + rest)
  {
    hide TParts, RTokens;
    PartsFront(first, more);
  }

  lemma {:induction false} PartsBack(parts: seq<Part>, rest: seq<Token>, n: nat)
    requires Ends(rest) && n + |parts| < MAXARGS
    ensures PArgs(TParts(parts) + rest, n) == Ok((Args(parts), Flat(parts)), rest)
    decreases |parts|
  {
    hide PArgs, PRedirs, RTokens, TParts, Args, Flat, Ends, AtRedir;
    if parts == [] {
      NoParts(rest);
      PArgsStop(rest, n);
    } else {
      var first, more := parts[0], parts[1..];
      assert parts == [first] + more;
      PartsStart(more, rest);
      PartsFront(first, more);
      FirstPart(first, more, rest);
      RedirsBack(first.rs, TParts(more) + rest);
      PartsBack(more, rest, n + 1);
      PArgsStep(TParts(parts) + rest, n, first.rs, TParts(more) + rest, Args(more), Flat(more), rest);
    }
  }

  lemma PartsStart(parts: seq<Part>, rest: seq<Token>)
    requires Ends(rest)
    ensures !AtRedir(TParts(parts) + rest) && !At(TParts(parts) + rest, '(')
  {
    if parts == [] { assert TParts(parts) + rest == rest; }
  }

  lemma SimplePartsBack(pre: seq<Redirection<string>>, parts: seq<Part>, rest: seq<Token>)
    requires Ends(rest) && |parts| < MAXARGS
    ensures PExec(RTokens(pre) + TParts(parts) + rest) == Ok(Wrap(Exec(Args(parts)), pre + Flat(parts)), rest)
  {
    hide PArgs, PRedirs, PExec, RTokens, TParts, Wrap;
    var ts, tail := RTokens(pre) + TParts(parts) + rest, TParts(parts) + rest;
    assert ts == RTokens(pre) + tail;
    PartsStart(parts, rest);
    NoTokens();
    if pre == [] { assert ts == tail; } else { RTokensFront(pre); }
    RedirsBack(pre, tail);
    PartsBack(parts, rest, 0);
    PExecSimple(ts, pre, tail, Args(parts), Flat(parts), rest);
  }

  lemma {:induction false} ItemBack(i: Item, rest: seq<Token>)
    requires Ends(rest) && FitsItem(i)
    ensures PExec(TItem(i) + rest) == Ok(MItem(i), rest)
    decreases i
  {
    hide PExec, PLine, PRedirs, RTokens, Wrap;
    match i
    case Simple(pre, parts) =>
      SimplePartsBack(pre, parts, rest);
      assert TItem(i) + rest == RTokens(pre) + TParts(parts) + rest;
    case Block(body, rs) =>
      var ts, after := TItem(i) + rest, [Sym(')')] + RTokens(rs) + rest;
      SyntaxBack(body, after);
      assert ts[1..] == TLine(body) + after;
      assert after[1..] == RTokens(rs) + rest;
      RedirsBack(rs, rest);
      PExecBlock(ts, MLine(body), after, rs, rest);
  }

  lemma {:induction false} PipelineBack(p: Pipeline, rest: seq<Token>)
    requires Ends(rest) && !At(rest, '|') && FitsPipe(p)
    ensures PPipe(TPipe(p) + rest) == Ok(MPipe(p), rest)
    decreases p
  {
    hide PExec, PPipe, TItem, MItem;
    match p
    case One(i) =>
      ItemBack(i, rest);
      PPipeStop(TPipe(p) + rest, MItem(i), rest);
    case Piped(i, more) =>
      var mid := [Sym('|')] + TPipe(more) + rest;
      ItemBack(i, mid);
      PipelineBack(more, rest);
      assert TPipe(p) + rest == TItem(i) + mid;
      assert mid[1..] == TPipe(more) + rest;
      PPipeStep(TPipe(p) + rest, MItem(i), mid, MPipe(more), rest);
  }

  lemma JobHere(p: Pipeline, n: nat, rest: seq<Token>)
    requires !At(rest, '&') && PPipe(TPipe(p) + (Amp(n) + rest)) == Ok(MPipe(p), Amp(n) + rest)
    ensures Job(TPipe(p) + Amp(n) + rest, Backs(MPipe(p), n), rest)
  {
    hide PPipe, TPipe, MPipe, Amps, Amp;
    AmpsBack(n, rest);
    assert TPipe(p) + Amp(n) + rest == TPipe(p) + (Amp(n) + rest);
  }

  lemma {:induction false} SyntaxBack(l: Line, rest: seq<Token>)
    requires (rest == [] || At(rest, ')')) && FitsLine(l)
    ensures PLine(TLine(l) + rest) == Ok(MLine(l), rest)
    decreases l
  {
    hide PPipe, PLine, TPipe, MPipe, Amps, Backs, Amp;
    match l
    case Last(p, n) =>
      AmpStart(n, rest);
      PipelineBack(p, Amp(n) + rest);
      JobHere(p, n, rest);
      PLineStop(TLine(l) + rest, MLine(l), rest);
    case Then(p, n, more) =>
      var mid := [Sym(';')] + TLine(more) + rest;
      AmpStart(n, mid);
      PipelineBack(p, Amp(n) + mid);
      JobHere(p, n, mid);
      SyntaxBack(more, rest);
      assert TLine(l) + rest == TPipe(p) + Amp(n) + mid;
      assert mid[1..] == TLine(more) + rest;
      PLineStep(TLine(l) + rest, Backs(MPipe(p), n), mid, MLine(more), rest);
  }

  // ---- whatever is parsed was written ----

  lemma RedirsOpen(ts: seq<Token>)
    requires PRedirs(ts).Ok? && AtRedir(ts)
    ensures |ts| >= 2 && ts[1].Word? && PRedirs(ts[2..]).Ok? && PRedirs(ts).rest == PRedirs(ts[2..]).rest
    ensures PRedirs(ts).value == [Redirection(ts[1].text, KindOf(ts[0].c))] + PRedirs(ts[2..]).value
    ensures ts[0] == Sym(RedirSym(KindOf(ts[0].c)))
  {
  }

  lemma {:induction false} RedirsRead(ts: seq<Token>)
    requires PRedirs(ts).Ok?
    ensures ts == RTokens(PRedirs(ts).value) + PRedirs(ts).rest
    decreases |ts|
  {
    if AtRedir(ts) {
      RedirsOpen(ts);
      hide PRedirs, RTokens;
      RedirsRead(ts[2..]);
      var rs := PRedirs(ts).value;
      RTokensFront(rs);
      assert rs[1..] == PRedirs(ts[2..]).value;
      assert ts == [ts[0], ts[1]] + ts[2..];
    } else {
      NoTokens();
    }
  }

  lemma Joined(ts: seq<Token>, first: Token, a: seq<Token>, b: seq<Token>, c: seq<Token>)
    requires ts != [] && ts[0] == first && ts[1..] == a + (b + c)
    ensures ts == [first] + a + b + c
  {
  }

  lemma ArgsOpen(ts: seq<Token>, n: nat)
    requires PArgs(ts, n).Ok? && !Ends(ts)
    ensures ts[0].Word? && n + 1 < MAXARGS && PRedirs(ts[1..]).Ok?
    ensures var p := PRedirs(ts[1..]); var r := PArgs(p.rest, n + 1);
      && r.Ok? && |p.rest| < |ts| && PArgs(ts, n).rest == r.rest
      && PArgs(ts, n).value == ([ts[0].text] + r.value.0, p.value + r.value.1)
  {
    hide PRedirs;
  }

  lemma {:induction false} ArgsRead(ts: seq<Token>, n: nat) returns (parts: seq<Part>)
    requires PArgs(ts, n).Ok? && n < MAXARGS
    ensures ts == TParts(parts) + PArgs(ts, n).rest && PArgs(ts, n).value == (Args(parts), Flat(parts))
    ensures n + |parts| < MAXARGS
    decreases |ts|
  {
    hide PArgs, PRedirs, RTokens, TParts, Args, Flat, Ends;
    if Ends(ts) {
      PArgsStop(ts, n);
      NoParts(ts);
      return [];
    }
    ArgsOpen(ts, n);
    var p := PRedirs(ts[1..]);
    RedirsRead(ts[1..]);
    var more := ArgsRead(p.rest, n + 1);
    PartsFront(Part(ts[0].text, p.value), more);
    parts := [Part(ts[0].text, p.value)] + more;
    Joined(ts, ts[0], RTokens(p.value), TParts(more), PArgs(ts, n).rest);
  }

  lemma {:induction false} ExecRead(ts: seq<Token>) returns (i: Item)
    requires PExec(ts).Ok?
    ensures ts == TItem(i) + PExec(ts).rest && MItem(i) == PExec(ts).value && FitsItem(i)
    decreases |ts|, 0
  {
    hide PArgs, PRedirs, RTokens, Wrap, PLine;
    if At(ts, '(') {
      var c := PLine(ts[1..]);
      var body := LineRead(ts[1..]);
      RedirsRead(c.rest[1..]);
      var p := PRedirs(c.rest[1..]);
      i := Block(body, p.value);
      assert ts == [Sym('(')] + ts[1..];
      assert c.rest == [Sym(')')] + c.rest[1..];
    } else {
      var p := PRedirs(ts);
      RedirsRead(ts);
      var parts := ArgsRead(p.rest, 0);
      i := Simple(p.value, parts);
    }
  }

  lemma {:induction false} PipeRead(ts: seq<Token>) returns (p: Pipeline)
    requires PPipe(ts).Ok?
    ensures ts == TPipe(p) + PPipe(ts).rest && MPipe(p) == PPipe(ts).value && FitsPipe(p)
    decreases |ts|, 1
  {
    hide PExec, TItem, MItem;
    var i := ExecRead(ts);
    var c := PExec(ts);
    if At(c.rest, '|') {
      var more := PipeRead(c.rest[1..]);
      p := Piped(i, more);
      assert c.rest == [Sym('|')] + c.rest[1..];
    } else {
      p := One(i);
    }
  }

  lemma LineOpen(ts: seq<Token>)
    requires PLine(ts).Ok?
    ensures PPipe(ts).Ok?
    ensures var c := PPipe(ts); var n := Amps(c.rest); var rest := c.rest[n..];
      && |rest| <= |ts| && c.rest == Amp(n) + rest
      && if At(rest, ';') then
           var d := PLine(rest[1..]);
           d.Ok? && PLine(ts) == Ok(List(Backs(c.value, n), d.value), d.rest)
         else PLine(ts) == Ok(Backs(c.value, n), rest)
  {
    hide PPipe, Backs;
    var c := PPipe(ts);
    var n := Amps(c.rest);
    assert c.rest == Amp(n) + c.rest[n..];
  }

  lemma Followed(ts: seq<Token>, a: seq<Token>, b: seq<Token>, rest: seq<Token>, c: seq<Token>, d: seq<Token>)
    requires ts == a + (b + rest) && At(rest, ';') && rest[1..] == c + d
    ensures ts == a + b + [Sym(';')] + c + d
  {
    assert rest == [Sym(';')] + rest[1..];
  }

  lemma LineCases(p: Pipeline, n: nat, more: Line)
    ensures TLine(Last(p, n)) == TPipe(p) + Amp(n) && MLine(Last(p, n)) == Backs(MPipe(p), n)
    ensures TLine(Then(p, n, more)) == TPipe(p) + Amp(n) + [Sym(';')] + TLine(more)
    ensures MLine(Then(p, n, more)) == List(Backs(MPipe(p), n), MLine(more))
    ensures FitsLine(Last(p, n)) == FitsPipe(p) && FitsLine(Then(p, n, more)) == (FitsPipe(p) && FitsLine(more))
  {
  }

  lemma {:induction false} LineRead(ts: seq<Token>) returns (l: Line)
    requires PLine(ts).Ok?
    ensures ts == TLine(l) + PLine(ts).rest && MLine(l) == PLine(ts).value && FitsLine(l)
    decreases |ts|, 2
  {
    hide PLine, PPipe, TPipe, MPipe, TLine, MLine, FitsLine, FitsPipe, Backs, Amps, Amp;
    LineOpen(ts);
    var p := PipeRead(ts);
    var c := PPipe(ts);
    var n := Amps(c.rest);
    var rest := c.rest[n..];
    if At(rest, ';') {
      var more := LineRead(rest[1..]);
      l := Then(p, n, more);
      LineCases(p, n, more);
      Followed(ts, TPipe(p), Amp(n), rest, TLine(more), PLine(ts).rest);
    } else {
      l := Last(p, n);
      LineCases(p, n, l);
      assert ts == TPipe(p) + Amp(n) + rest;
    }
  }

  /** A line of tokens is accepted to its end as the tree t exactly if it is a way of
      writing t. */
  lemma AcceptsExactly(ts: seq<Token>, t: Tree)
    ensures PLine(ts) == Ok(t, []) <==> exists l :: FitsLine(l) && TLine(l) == ts && MLine(l) == t
  {
    hide PLine, TLine, MLine, FitsLine;
    if PLine(ts) == Ok(t, []) {
      var l := LineRead(ts);
      assert TLine(l) + [] == TLine(l);
      assert FitsLine(l) && TLine(l) == ts && MLine(l) == t;
    }
    forall l | FitsLine(l) && TLine(l) == ts && MLine(l) == t ensures PLine(ts) == Ok(t, []) {
      SyntaxBack(l, []);
      assert TLine(l) + [] == TLine(l);
    }
  }

  /** The string s is the line l with white space in the gaps. */
  ghost predicate Writes(l: Line, gaps: seq<string>, s: string) {
    FitsLine(l) && GoodTokens(TLine(l)) && Spacing(gaps, TLine(l)) && Spaced(gaps, TLine(l)) == s
  }

  /** The shell accepts a line as the tree t exactly if it is a way of writing t. */
  lemma LineMeans(s: string, t: Tree)
    ensures PLine(Lex(s, 0)) == Ok(t, []) <==> exists l, gaps :: Writes(l, gaps, s) && MLine(l) == t
  {
    hide PLine, Lex, TLine, MLine, FitsLine, Spaced, GoodToken, AllWhite;
    AcceptsExactly(Lex(s, 0), t);
    LexIsSpacing(s, 0);
    assert s[0..] == s;
    if l :| FitsLine(l) && TLine(l) == Lex(s, 0) && MLine(l) == t {
      assert Writes(l, Gaps(s, 0), s);
    }
    forall l, gaps | Writes(l, gaps, s) && MLine(l) == t ensures TLine(l) == Lex(s, 0) {
      LexSpaced("", gaps, TLine(l));
      assert "" + s == s;
    }
  }
}
