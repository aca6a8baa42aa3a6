/** grep.c: the backtracking matcher against a declarative meaning of patterns, and
    the line reader that works on whatever chunks read() returns. */
module Grep {
  // ---- the matcher, as written ----

  function MatchHere(re: string, text: string): (r: bool)
    decreases |re|, |text|, 0
  {
    if re == "" then true
    else if |re| > 1 && re[1] == '*' then MatchStar(re[0], re[2..], text)
    else if re == "$" then text == ""
    else text != "" && (re[0] == '.' || re[0] == text[0]) && MatchHere(re[1..], text[1..])
  }

  function MatchStar(c: char, re: string, text: string): (r: bool)
    decreases |re|, |text|, 1
  {
    MatchHere(re, text) || (text != "" && (text[0] == c || c == '.') && MatchStar(c, re, text[1..]))
  }

  /** The loop of match over the starting points. */
  function MatchFrom(re: string, text: string): (r: bool)
    decreases |text|
  {
    MatchHere(re, text) || (text != "" && MatchFrom(re, text[1..]))
  }

  function Match(re: string, text: string): (r: bool) {
    if re != "" && re[0] == '^' then MatchHere(re[1..], text) else MatchFrom(re, text)
  }

  // ---- what patterns mean ----

  /** One character, any number of them, or the end of the text; '.' is any
      character, everything else itself. */
  datatype Item = One(c: char) | Star(c: char) | End

  function Items(re: string): (items: seq<Item>)
    decreases |re|
  {
    if re == "" then []
    else if |re| > 1 && re[1] == '*' then [Star(re[0])] + Items(re[2..])
    else if re == "$" then [End]
    else [One(re[0])] + Items(re[1..])
  }

  predicate Fits(c: char, x: char) {
    c == '.' || c == x
  }

  ghost predicate AllFit(c: char, w: string) {
    forall i :: 0 <= i < |w| ==> Fits(c, w[i])
  }

  /** The items, one after the other, match exactly the word w; `last` says that the
      text ends after w. */
  ghost predicate Denotes(items: seq<Item>, w: string, last: bool)
    decreases |items|
  {
    if items == [] then w == ""
    else match items[0]
      case One(c) => w != "" && Fits(c, w[0]) && Denotes(items[1..], w[1..], last)
      case Star(c) => exists k :: 0 <= k <= |w| && AllFit(c, w[..k]) && Denotes(items[1..], w[k..], last)
      case End => w == "" && last && Denotes(items[1..], w, last)
  }

  /** The pattern matches the first n characters of the text. */
  ghost predicate MatchesPrefix(items: seq<Item>, text: string, n: int) {
    0 <= n <= |text| && Denotes(items, text[..n], n == |text|)
  }

  ghost predicate Starts(items: seq<Item>, text: string) {
    exists n :: MatchesPrefix(items, text, n)
  }

  ghost predicate MatchesAt(items: seq<Item>, text: string, i: int, n: int) {
    0 <= i <= |text| && MatchesPrefix(items, text[i..], n)
  }

  ghost predicate Occurs(items: seq<Item>, text: string) {
    exists i, n :: MatchesAt(items, text, i, n)
  }

  /** The meaning of a pattern: it matches some stretch of the text, from the start
      if it begins with ^. */
  ghost predicate Means(re: string, text: string) {
    if re != "" && re[0] == '^' then Starts(Items(re[1..]), text) else Occurs(Items(re), text)
  }

  lemma {:induction false} MatchHereMeans(re: string, text: string)
    ensures MatchHere(re, text) <==> Starts(Items(re), text)
    decreases |re|, |text|, 0
  {
    if re == "" {
      assert MatchesPrefix(Items(re), text, 0);
    } else if |re| > 1 && re[1] == '*' {
      MatchStarMeans(re[0], re[2..], text);
      StarPrefix(re[0], Items(re[2..]), text);
      assert Items(re) == [Star(re[0])] + Items(re[2..]);
    } else if re == "$" {
      EndPrefix(text);
    } else if text != "" {
      MatchHereMeans(re[1..], text[1..]);
      OnePrefix(re[0], Items(re[1..]), text);
      assert Items(re) == [One(re[0])] + Items(re[1..]);
    }
  }

  lemma EndPrefix(text: string)
    ensures Starts([End], text) <==> text == ""
  {
    if text == "" { assert MatchesPrefix([End], text, 0); }
    if n :| MatchesPrefix([End], text, n) { assert text[..n] == "" && n == |text|; }
  }

  lemma OnePrefix(c: char, items: seq<Item>, text: string)
    requires text != ""
    ensures Starts([One(c)] + items, text) <==>
      Fits(c, text[0]) && Starts(items, text[1..])
  {
    var all := [One(c)] + items;
    assert all[1..] == items;
    if n :| MatchesPrefix(all, text, n) {
      assert text[..n][1..] == text[1..][..n - 1];
      assert MatchesPrefix(items, text[1..], n - 1);
    }
    if n :| Fits(c, text[0]) && MatchesPrefix(items, text[1..], n) {
      assert text[..n + 1][1..] == text[1..][..n];
      assert MatchesPrefix(all, text, n + 1);
    }
  }

  /** c* followed by the items matches after skipping k characters that fit c. */
  ghost predicate StarSkips(c: char, items: seq<Item>, text: string, k: int) {
    0 <= k <= |text| && AllFit(c, text[..k]) && Starts(items, text[k..])
  }

  lemma StarPrefix(c: char, items: seq<Item>, text: string)
    ensures Starts([Star(c)] + items, text) <==> exists k :: StarSkips(c, items, text, k)
  {
    var all := [Star(c)] + items;
    assert all[1..] == items;
    if n :| MatchesPrefix(all, text, n) {
      var w := text[..n];
      var k :| 0 <= k <= |w| && AllFit(c, w[..k]) && Denotes(items, w[k..], n == |text|);
      assert w[..k] == text[..k] && w[k..] == text[k..][..n - k];
      assert MatchesPrefix(items, text[k..], n - k);
      assert StarSkips(c, items, text, k);
    }
    if k :| StarSkips(c, items, text, k) {
      var n :| MatchesPrefix(items, text[k..], n);
      var w := text[..k + n];
      assert w[..k] == text[..k] && w[k..] == text[k..][..n];
      assert Denotes(all, w, k + n == |text|);
      assert MatchesPrefix(all, text, k + n);
    }
  }

  lemma {:induction false} MatchStarMeans(c: char, re: string, text: string)
    ensures MatchStar(c, re, text) <==> exists k :: StarSkips(c, Items(re), text, k)
    decreases |re|, |text|, 1
  {
    MatchHereMeans(re, text);
    var items := Items(re);
    assert text[0..] == text && text[..0] == "";
    if MatchHere(re, text) { assert StarSkips(c, items, text, 0); }
    if text != "" {
      MatchStarMeans(c, re, text[1..]);
      SkipOne(c, items, text);
    } else if k :| StarSkips(c, items, text, k) {
      assert k == 0;
    }
  }

  lemma SkipOne(c: char, items: seq<Item>, text: string)
    requires text != ""
    ensures (exists k :: StarSkips(c, items, text, k)) <==>
      Starts(items, text) || (Fits(c, text[0]) && exists k :: StarSkips(c, items, text[1..], k))
  {
    assert text[0..] == text && text[..0] == "";
    if n :| MatchesPrefix(items, text, n) { assert StarSkips(c, items, text, 0); }
    if k :| StarSkips(c, items, text, k) && k > 0 {
      assert text[1..][..k - 1] == text[..k][1..] && text[1..][k - 1..] == text[k..];
      assert Fits(c, text[..k][0]);
      assert StarSkips(c, items, text[1..], k - 1);
    }
    if k :| Fits(c, text[0]) && StarSkips(c, items, text[1..], k) {
      assert text[..k + 1] == [text[0]] + text[1..][..k] && text[k + 1..] == text[1..][k..];
      assert StarSkips(c, items, text, k + 1);
    }
  }

  lemma {:induction false} MatchFromMeans(re: string, text: string)
    ensures MatchFrom(re, text) <==> Occurs(Items(re), text)
    decreases |text|
  {
    var items := Items(re);
    MatchHereMeans(re, text);
    assert text[0..] == text;
    if n :| MatchesPrefix(items, text, n) { assert MatchesAt(items, text, 0, n); }
    if text != "" {
      MatchFromMeans(re, text[1..]);
      if i, n :| MatchesAt(items, text, i, n) && i > 0 {
        assert text[i..] == text[1..][i - 1..];
        assert MatchesAt(items, text[1..], i - 1, n);
      }
      if i, n :| MatchesAt(items, text[1..], i, n) {
        assert text[1..][i..] == text[i + 1..];
        assert MatchesAt(items, text, i + 1, n);
      }
    }
  }

  /** match finds a match exactly when there is one. */
  lemma MatchMeans(re: string, text: string)
    ensures Match(re, text) <==> Means(re, text)
  {
    if re != "" && re[0] == '^' { MatchHereMeans(re[1..], text); } else { MatchFromMeans(re, text); }
  }

  // ---- the reader ----

  const BUFSIZE: nat := 1024

  /** The first newline at or after i, or |s|. */
  function Newline(s: string, i: nat): (k: nat)
    requires i <= |s|
    ensures i <= k <= |s| && (k < |s| ==> s[k] == '\n') && forall j :: i <= j < k ==> s[j] != '\n'
    decreases |s| - i
  {
    if i == |s| || s[i] == '\n' then i else Newline(s, i + 1)
  }

  /** What grep prints: the matching lines in order, up to the first line that with
      its newline does not fit the buffer. */
  function Printed(re: string, s: string): (out: seq<string>)
    decreases |s|
  {
    var k := Newline(s, 0);
    if k == |s| || k + 1 >= BUFSIZE then []
    else (if Match(re, s[..k]) then [s[..k + 1]] else []) + Printed(re, s[k + 1..])
  }

  /** The newline-terminated lines of the input, without their newlines. */
  function Lines(s: string): (lines: seq<string>)
    decreases |s|
  {
    var k := Newline(s, 0);
    if k == |s| then [] else [s[..k]] + Lines(s[k + 1..])
  }

  function Selected(re: string, lines: seq<string>): (out: seq<string>) {
    if lines == [] then []
    else (if Match(re, lines[0]) then [lines[0] + "\n"] else []) + Selected(re, lines[1..])
  }

  /** The lines from the first on that with its newline does not fit the buffer. */
  function FromLong(lines: seq<string>): (rest: seq<string>) {
    if lines == [] || |lines[0]| + 1 >= BUFSIZE then lines else FromLong(lines[1..])
  }

  /** Those before are short enough, and the first of them, if any, is not. */
  lemma {:induction false} FromLongMeans(lines: seq<string>) returns (k: nat)
    ensures k <= |lines| && FromLong(lines) == lines[k..] && (k < |lines| ==> |lines[k]| + 1 >= BUFSIZE)
    ensures forall i :: 0 <= i < k ==> |lines[i]| + 1 < BUFSIZE
  {
    k := 0;
    if lines != [] && |lines[0]| + 1 < BUFSIZE {
      var n := FromLongMeans(lines[1..]);
      k := n + 1;
    }
  }

  /** Without overlong lines every matching line is printed. */
  lemma ShortLinesPrinted(re: string, s: string)
    requires forall i :: 0 <= i < |Lines(s)| ==> |Lines(s)[i]| + 1 < BUFSIZE
    ensures Printed(re, s) == Selected(re, Lines(s))
  {
    hide Printed, Match, Lines;
    PrintedCut(re, s);
    var k := FromLongMeans(Lines(s));
    assert Selected(re, []) == [];
  }

  /** What is printed is the matching lines before the first that is too long; the
      matching ones from there on are lost. */
  lemma {:induction false} PrintedCut(re: string, s: string)
    ensures Selected(re, Lines(s)) == Printed(re, s) + Selected(re, FromLong(Lines(s)))
    decreases |s|
  {
    hide Match;
    var k := Newline(s, 0);
    if k < |s| && k + 1 < BUFSIZE {
      assert s[..k + 1] == s[..k] + "\n";
      PrintedCut(re, s[k + 1..]);
      CutStep(re, s[..k], Lines(s[k + 1..]));
      hide Selected, FromLong, Lines;
      var first := if Match(re, s[..k]) then [s[..k + 1]] else [];
      Assoc(first, Printed(re, s[k + 1..]), Selected(re, FromLong(Lines(s[k + 1..]))));
    }
  }

  lemma CutStep(re: string, line: string, lines: seq<string>)
    requires |line| + 1 < BUFSIZE
    ensures FromLong([line] + lines) == FromLong(lines)
    ensures Selected(re, [line] + lines) == (if Match(re, line) then [line + "\n"] else []) + Selected(re, lines)
  {
    hide Match;
    assert ([line] + lines)[1..] == lines;
  }

  /** All matching lines are printed exactly if none of them is, or follows, a line
      that is too long. */
  lemma PrintedAll(re: string, s: string)
    ensures Printed(re, s) == Selected(re, Lines(s)) <==>
      forall line :: line in FromLong(Lines(s)) ==> !Match(re, line)
  {
    hide Match, Printed, Lines, FromLong;
    PrintedCut(re, s);
    SelectedNone(re, FromLong(Lines(s)));
  }

  lemma {:induction false} SelectedNone(re: string, lines: seq<string>)
    ensures Selected(re, lines) == [] <==> forall line :: line in lines ==> !Match(re, line)
  {
    hide Match;
    if lines != [] {
      assert lines == [lines[0]] + lines[1..];
      SelectedNone(re, lines[1..]);
    }
  }

  lemma MatchesAll(text: string)
    ensures Match("", text)
  {
  }

  /** A line of 1023 letters, which the pattern "" matches, and a short one behind it
      are both lost. */
  lemma LongLineLost()
    ensures var s := seq(1023, _ => 'a') + "\nb\n";
      Printed("", s) == [] && |Selected("", Lines(s))| == 2
  {
    var long := seq(1023, _ => 'a');
    var s := long + "\nb\n";
    assert s[1023] == '\n' && forall j :: 0 <= j < 1023 ==> s[j] == 'a';
    assert Newline(s, 0) == 1023;
    var rest := s[1024..];
    assert rest == "b\n" && Newline(rest, 0) == 1;
    assert rest[..1] == "b" && rest[2..] == "";
    assert Lines(rest) == ["b"];
    assert Lines(s) == [long, "b"] by { assert s[..1023] == long; }
    MatchesAll("b");
    MatchesAll(long);
    assert ["b"][1..] == [] && [long, "b"][1..] == ["b"];
  }

  lemma PrintedStep(re: string, s: string, k: nat)
    requires k < |s| && s[k] == '\n' && (forall j :: 0 <= j < k ==> s[j] != '\n') && k + 1 < BUFSIZE
    ensures Printed(re, s) == (if Match(re, s[..k]) then [s[..k + 1]] else []) + Printed(re, s[k + 1..])
  {
    assert Newline(s, 0) == k;
  }

  /** Nothing more is printed once the buffer is full of one line, or at the end. */
  lemma PrintedStuck(re: string, line: string, rest: string)
    requires forall j :: 0 <= j < |line| ==> line[j] != '\n'
    requires |line| + 1 >= BUFSIZE || rest == ""
    ensures Printed(re, line + rest) == []
  {
    var s := line + rest;
    assert forall j :: 0 <= j < |line| ==> s[j] != '\n';
    assert Newline(s, 0) >= |line|;
  }

  /** Without NULs. */
  ghost predicate Plain(s: string) {
    forall j :: 0 <= j < |s| ==> s[j] != '\0'
  }

  class Searcher {
    const buf: array<char>

    constructor ()
      ensures fresh(buf) && buf.Length == BUFSIZE
    {
      buf := new char[BUFSIZE];
    }

    /** strchr(p, '\n') on the NUL-terminated buffer: m for not found. */
    method FindNewline(p: nat, m: nat) returns (q: nat)
      requires buf.Length == BUFSIZE && p <= m < BUFSIZE && buf[m] == '\0'
      requires forall j :: p <= j < m ==> buf[j] != '\0'
      ensures p <= q <= m && (q < m ==> buf[q] == '\n') && forall j :: p <= j < q ==> buf[j] != '\n'
    {
      q := p;
      while buf[q] != '\0' && buf[q] != '\n'
        invariant p <= q <= m && forall j :: p <= j < q ==> buf[j] != '\n'
        decreases m - q
      {
        q := q + 1;
      }
    }

    /** One line, from p to the newline at q: it is cut off with a NUL, matched, and
        written if it matches. */
    method PrintLine(re: string, p: nat, q: nat) returns (out: seq<string>)
      requires buf.Length == BUFSIZE && p <= q < BUFSIZE && buf[q] == '\n'
      modifies buf
      ensures forall j :: q < j < BUFSIZE ==> buf[j] == old(buf[j])
      ensures out == if Match(re, old(buf[p..q])) then [old(buf[p..q + 1])] else []
    {
      out := [];
      buf[q] := '\0';
      assert buf[p..q] == old(buf[p..q]);
      if Match(re, buf[p..q]) {
        buf[q] := '\n';
        assert buf[p..q + 1] == old(buf[p..q + 1]);
        out := [buf[p..q + 1]];
      }
    }

    /** The lines complete in buf[..m] are printed; p is where the rest begins. */
    method PrintLines(re: string, m: nat, ghost rest: string) returns (p: nat, out: seq<string>)
      requires buf.Length == BUFSIZE && m < BUFSIZE && buf[m] == '\0'
      requires forall j :: 0 <= j < m ==> buf[j] != '\0'
      modifies buf
      ensures p <= m && buf[p..m] == old(buf[p..m]) && forall j :: p <= j < m ==> buf[j] != '\n'
      ensures out + Printed(re, buf[p..m] + rest) == Printed(re, old(buf[..m]) + rest)
    {
      hide Match, Printed;
      p, out := 0, [];
      ghost var was := buf[..];
      ghost var all := Printed(re, was[..m] + rest);
      assert was[0..m] == was[..m];
      while true
        invariant p <= m && buf.Length == BUFSIZE && forall j :: p <= j < BUFSIZE ==> buf[j] == was[j]
        invariant out + Printed(re, was[p..m] + rest) == all
        decreases m - p
      {
        var q := FindNewline(p, m);
        if q == m { break; }
        LineOut(re, was, p, q, m, rest);
        assert buf[p..q] == was[p..q] && buf[p..q + 1] == was[p..q + 1];
        var line := PrintLine(re, p, q);
        Assoc(out, line, Printed(re, was[q + 1..m] + rest));
        out := out + line;
        p := q + 1;
      }
      assert buf[p..m] == was[p..m];
      assert was[..m] == old(buf[..m]);
    }

    /** read(fd, buf + m, ...) that returns `chunk`, and the NUL behind it. */
    method Fill(m: nat, chunk: string)
      requires buf.Length == BUFSIZE && m + |chunk| < BUFSIZE
      modifies buf
      ensures buf[..m + |chunk|] == old(buf[..m]) + chunk && buf[m + |chunk|] == '\0'
    {
      for j := 0 to |chunk|
        invariant forall i :: 0 <= i < m ==> buf[i] == old(buf[i])
        invariant forall i :: m <= i < m + j ==> buf[i] == chunk[i - m]
      {
        buf[m + j] := chunk[j];
      }
      buf[m + |chunk|] := '\0';
    }

    /** One round: m bytes of an unfinished line are in the buffer, and `chunk` is read. */
    method Round(re: string, m: nat, chunk: string, ghost rest: string) returns (m1: nat, out: seq<string>)
      requires buf.Length == BUFSIZE && m + |chunk| < BUFSIZE
      requires Plain(buf[..m]) && Plain(chunk)
      modifies buf
      ensures m1 < BUFSIZE && Plain(buf[..m1]) && forall j :: 0 <= j < m1 ==> buf[j] != '\n'
      ensures out + Printed(re, buf[..m1] + rest) == Printed(re, old(buf[..m]) + chunk + rest)
    {
      hide Match, Printed;
      Fill(m, chunk);
      var n := m + |chunk|;
      assert forall j :: 0 <= j < n ==> buf[j] == buf[..n][j];
      var p;
      p, out := PrintLines(re, n, rest);
      ghost var left := buf[p..n];
      assert Plain(left) && forall j :: 0 <= j < |left| ==> left[j] != '\n';
      Shift(p, n);
      m1 := n - p;
      assert forall j :: 0 <= j < m1 ==> buf[j] == buf[..m1][j] == left[j];
    }

    /** grep: whatever pieces read() returns (the sizes in `cuts`, at least one byte a
        time, at most what fits), a NUL-free input is printed line by line. */
    method Grep(re: string, input: string, cuts: seq<nat>) returns (out: seq<string>)
      requires buf.Length == BUFSIZE && Plain(input)
      modifies buf
      ensures out == Printed(re, input)
    {
      hide Match, Printed;
      out := [];
      var m: nat, pos: nat, k: nat := 0, 0, 0;
      assert buf[..0] + input[0..] == input;
      while true
        invariant m < BUFSIZE && pos <= |input| && buf.Length == BUFSIZE
        invariant Plain(buf[..m]) && forall j :: 0 <= j < m ==> buf[j] != '\n'
        invariant out + Printed(re, buf[..m] + input[pos..]) == Printed(re, input)
        decreases |input| - pos
      {
        var n := ReadSize(if k < |cuts| then cuts[k] else 1, BUFSIZE - m - 1, |input| - pos);
        if n == 0 {
          PrintedStuck(re, buf[..m], input[pos..]);
          return;
        }
        Regroup(buf[..m], input, pos, n);
        var lines;
        m, lines := Round(re, m, input[pos..pos + n], input[pos + n..]);
        Assoc(out, lines, Printed(re, buf[..m] + input[pos + n..]));
        out, pos, k := out + lines, pos + n, k + 1;
      }
    }

    /** memmove(buf, p, m). */
    method Shift(p: nat, m: nat)
      requires buf.Length == BUFSIZE && p <= m < BUFSIZE
      modifies buf
      ensures buf[..m - p] == old(buf[p..m])
    {
      for j := 0 to m - p
        invariant forall i :: 0 <= i < j ==> buf[i] == old(buf[p + i])
        invariant forall i :: j <= i < BUFSIZE && p + j <= i ==> buf[i] == old(buf[i])
      {
        buf[j] := buf[p + j];
      }
    }
  }

  /** read: 0 at the end of the input or without room, else at least one byte. */
  function ReadSize(cut: nat, room: nat, left: nat): (n: nat)
    ensures n <= room && n <= left && (n == 0 <==> room == 0 || left == 0)
  {
    var most := if room < left then room else left;
    if cut == 0 && most > 0 then 1 else if cut < most then cut else most
  }

  lemma Regroup(held: string, input: string, pos: nat, n: nat)
    requires pos + n <= |input|
    ensures (held + input[pos..pos + n]) + input[pos + n..] == held + input[pos..]
  {
  }

  lemma Assoc(a: seq<string>, b: seq<string>, c: seq<string>)
    ensures a + (b + c) == (a + b) + c
  {
  }

  lemma LineOut(re: string, was: string, p: nat, q: nat, m: nat, rest: string)
    requires p <= q < m <= |was| && was[q] == '\n' && (forall j :: p <= j < q ==> was[j] != '\n') && m < BUFSIZE
    ensures Printed(re, was[p..m] + rest) ==
      (if Match(re, was[p..q]) then [was[p..q + 1]] else []) + Printed(re, was[q + 1..m] + rest)
  {
    hide Match, Printed;
    var s := was[p..m] + rest;
    assert forall j :: 0 <= j < q - p ==> s[j] == was[p + j];
    PrintedStep(re, s, q - p);
    assert s[..q - p] == was[p..q] && s[..q - p + 1] == was[p..q + 1] && s[q - p + 1..] == was[q + 1..m] + rest;
  }
}
