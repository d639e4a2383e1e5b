/**
 The language of sh.c, given independently of its parser: the lexemes of a line,
 the grammar with the trees it builds, and the proof that a line has at most one.
 */
module ShellGrammar {
  const MAXARGS: nat := 10
  const NUL: char := '\0'

  predicate White(c: char) {
    c in " \t\r\n" || c == 11 as char
  }

  predicate Symbol(c: char) {
    c in "<|>&;()"
  }

  predicate Word(c: char) {
    c != NUL && !White(c) && !Symbol(c)
  }

  /** s[..es] is a C string with its terminator at es. */
  predicate Line(s: seq<char>, es: nat) {
    es < |s| && s[es] == NUL && forall i :: 0 <= i < es ==> s[i] != NUL
  }

  /** A range of the line. */
  datatype Tok = Tok(q: nat, eq: nat)

  datatype Cmd =
    | Exec(argv: seq<Tok>)
    | Redir(cmd: Cmd, file: Tok, write: bool, fd: nat)
    | Pipe(left: Cmd, right: Cmd)
    | List(left: Cmd, right: Cmd)
    | Back(cmd: Cmd)

  datatype Parse = Parsed(cmd: Cmd) | Panic

  // ----- the tokens of a line -----

  /** A word, or a symbol with + for >>. */
  datatype Lexeme = W(t: Tok) | Sym(c: char)

  function AfterWhite(s: seq<char>, es: nat, i: nat): (k: nat)
    requires Line(s, es) && i <= es
    ensures i <= k <= es && (forall x :: i <= x < k ==> White(s[x])) && !White(s[k])
    decreases es - i
  {
    if White(s[i]) then AfterWhite(s, es, i + 1) else i
  }

  /** The end of the run of word characters that starts at i. */
  function RunEnd(s: seq<char>, es: nat, i: nat): (e: nat)
    requires Line(s, es) && i <= es
    ensures i <= e <= es && (forall k :: i <= k < e ==> Word(s[k])) && !Word(s[e])
    decreases es - i
  {
    if Word(s[i]) then RunEnd(s, es, i + 1) else i
  }

  /** The lexemes of the line from i on: symbols, and maximal runs of word characters. */
  function Lex(s: seq<char>, es: nat, i: nat): seq<Lexeme>
    requires Line(s, es) && i <= es
    decreases es - i
  {
    var q := AfterWhite(s, es, i);
    if q == es then []
    else if s[q] == '>' && s[q + 1] == '>' then [Sym('+')] + Lex(s, es, q + 2)
    else if Symbol(s[q]) then [Sym(s[q])] + Lex(s, es, q + 1)
    else [W(Tok(q, RunEnd(s, es, q)))] + Lex(s, es, RunEnd(s, es, q))
  }

  // ----- the grammar -----

  datatype Redirection = Redirection(file: Tok, write: bool, fd: nat)

  /** The redirections applied one after the other, the last one outermost. */
  function Wrap(cmd: Cmd, rs: seq<Redirection>): Cmd {
    if rs == [] then cmd else Redir(Wrap(cmd, rs[..|rs| - 1]), rs[|rs| - 1].file, rs[|rs| - 1].write, rs[|rs| - 1].fd)
  }

  /** What <, > and >> do. */
  predicate Means(op: char, r: Redirection) {
    if op == '<' then r == Redirection(r.file, false, 0) else op in ">+" && r == Redirection(r.file, true, 1)
  }

  /** redirs: any number of < word, > word, >> word. */
  ghost predicate Redirs(rs: seq<Redirection>, ts: seq<Lexeme>) {
    |ts| == 2 * |rs| && forall i :: 0 <= i < |rs| ==> ts[2 * i].Sym? && Means(ts[2 * i].c, rs[i]) && ts[2 * i + 1] == W(rs[i].file)
  }

  /** A simple command: redirections, then words each followed by redirections. */
  ghost predicate Simple(argv: seq<Tok>, rs: seq<Redirection>, ts: seq<Lexeme>)
    decreases |argv|
  {
    if argv == [] then Redirs(rs, ts)
    else exists r1, r2, t1, t2 {:trigger Simple(argv[..|argv| - 1], r1, t1), Redirs(r2, t2)} ::
      && rs == r1 + r2 && ts == t1 + [W(argv[|argv| - 1])] + t2
      && Simple(argv[..|argv| - 1], r1, t1) && Redirs(r2, t2)
  }

  ghost predicate Block(cmd: Cmd, ts: seq<Lexeme>)
    decreases |ts|, 0
  {
    exists c, rs, a, b :: cmd == Wrap(c, rs) && ts == [Sym('(')] + a + [Sym(')')] + b && LineOf(c, a) && Redirs(rs, b)
  }

  ghost predicate ExecOf(cmd: Cmd, ts: seq<Lexeme>)
    decreases |ts|, 1
  {
    Block(cmd, ts) || exists argv, rs :: cmd == Wrap(Exec(argv), rs) && |argv| < MAXARGS && Simple(argv, rs, ts)
  }

  ghost predicate PipeOf(cmd: Cmd, ts: seq<Lexeme>)
    decreases |ts|, 2
  {
    || ExecOf(cmd, ts)
    || (cmd.Pipe? && exists a, b :: ts == a + [Sym('|')] + b && ExecOf(cmd.left, a) && PipeOf(cmd.right, b))
  }

  ghost predicate BackOf(cmd: Cmd, ts: seq<Lexeme>)
    decreases |ts|, 3
  {
    || PipeOf(cmd, ts)
    || (cmd.Back? && exists a :: ts == a + [Sym('&')] && BackOf(cmd.cmd, a))
  }

  /** ts is a sentence of the shell's grammar and cmd its tree. */
  ghost predicate LineOf(cmd: Cmd, ts: seq<Lexeme>)
    decreases |ts|, 4
  {
    || BackOf(cmd, ts)
    || (cmd.List? && exists a, b :: ts == a + [Sym(';')] + b && BackOf(cmd.left, a) && LineOf(cmd.right, b))
  }

  // ----- no other tree -----

  predicate Op(x: Lexeme) {
    x.Sym? && x.c in "<>+"
  }

  predicate Starts(x: seq<Lexeme>, syms: seq<char>) {
    x != [] && x[0].Sym? && x[0].c in syms
  }

  /** x is empty or starts with one of syms: what may follow a phrase of the grammar. */
  predicate Follows(x: seq<Lexeme>, syms: seq<char>) {
    x == [] || Starts(x, syms)
  }

  /** Whatever redirections x starts with, not followed by one more, are rs. */
  ghost predicate OnlyRedirs(x: seq<Lexeme>, ok: bool, rs: seq<Redirection>, ts: seq<Lexeme>) {
    forall r, t :: t <= x && Redirs(r, t) && !Starts(x[|t|..], "<>+") ==> ok && r == rs && t == ts
  }

  ghost predicate OnlyBlock(x: seq<Lexeme>, r: Parse, ts: seq<Lexeme>) {
    forall c, t :: t <= x && Block(c, t) && Follows(x[|t|..], "|)&;") ==> r == Parsed(c) && t == ts
  }

  ghost predicate OnlyExec(x: seq<Lexeme>, r: Parse, ts: seq<Lexeme>) {
    forall c, t :: t <= x && ExecOf(c, t) && Follows(x[|t|..], "|)&;") ==> r == Parsed(c) && t == ts
  }

  ghost predicate OnlyPipe(x: seq<Lexeme>, r: Parse, ts: seq<Lexeme>) {
    forall c, t :: t <= x && PipeOf(c, t) && Follows(x[|t|..], ")&;") ==> r == Parsed(c) && t == ts
  }

  ghost predicate OnlyBack(x: seq<Lexeme>, r: Parse, ts: seq<Lexeme>) {
    forall c, t :: t <= x && BackOf(c, t) && Follows(x[|t|..], ");") ==> r == Parsed(c) && t == ts
  }

  /** Any tree the grammar gives a beginning of x that may end there is the one parsed. */
  ghost predicate OnlyLine(x: seq<Lexeme>, r: Parse, ts: seq<Lexeme>) {
    forall c, t :: t <= x && LineOf(c, t) && Follows(x[|t|..], ")") ==> r == Parsed(c) && t == ts
  }

  lemma SameRedirs(x: seq<Lexeme>, rs: seq<Redirection>, ts: seq<Lexeme>, r: seq<Redirection>, t: seq<Lexeme>)
    requires ts <= x && t <= x && Redirs(rs, ts) && Redirs(r, t) && |ts| == |t|
    ensures ts == t && rs == r
  {
    assert ts == x[..|ts|] == t;
    forall i | 0 <= i < |rs| ensures rs[i] == r[i] {
      assert ts[2 * i].Sym? && Means(ts[2 * i].c, rs[i]) && ts[2 * i + 1] == W(rs[i].file);
      assert Means(t[2 * i].c, r[i]) && t[2 * i + 1] == W(r[i].file);
    }
  }

  /** A list of redirections shorter than another beginning of x is followed by an operator. */
  lemma ShorterRedirs(x: seq<Lexeme>, r: seq<Redirection>, t: seq<Lexeme>, rs: seq<Redirection>, ts: seq<Lexeme>)
    requires t <= x && ts <= x && Redirs(r, t) && Redirs(rs, ts) && |t| < |ts|
    ensures Starts(x[|t|..], "<>+")
  {
    var i := |r|;
    assert ts[2 * i].Sym? && Means(ts[2 * i].c, rs[i]);
    assert x[|t|..][0] == ts[2 * i];
  }

  lemma RedirAt(rs: seq<Redirection>, ts: seq<Lexeme>, i: nat)
    requires Redirs(rs, ts) && i < |rs|
    ensures Op(ts[2 * i]) && ts[2 * i + 1].W?
  {
  }

  lemma RedirsUnique(x: seq<Lexeme>, rs: seq<Redirection>, ts: seq<Lexeme>)
    requires ts <= x && Redirs(rs, ts) && !Starts(x[|ts|..], "<>+")
    ensures OnlyRedirs(x, true, rs, ts)
  {
    hide Redirs;
    forall r, t | t <= x && Redirs(r, t) && !Starts(x[|t|..], "<>+") ensures r == rs && t == ts {
      if |t| < |ts| {
        ShorterRedirs(x, r, t, rs, ts);
      } else if |ts| < |t| {
        ShorterRedirs(x, rs, ts, r, t);
      } else {
        SameRedirs(x, rs, ts, r, t);
      }
    }
  }

  /** An operator without a word after it cannot be part of redirections. */
  lemma RedirsStuck(x: seq<Lexeme>, rs: seq<Redirection>, ts: seq<Lexeme>)
    requires ts <= x && Redirs(rs, ts) && Starts(x[|ts|..], "<>+") && !(|x| > |ts| + 1 && x[|ts| + 1].W?)
    ensures OnlyRedirs(x, false, rs, ts)
  {
    forall r: seq<Redirection>, t: seq<Lexeme> | t <= x && Redirs(r, t) ensures Starts(x[|t|..], "<>+") {
      if |t| < |ts| {
        ShorterRedirs(x, r, t, rs, ts);
      } else if |ts| < |t| {
        RedirAt(r, t, |rs|);
      }
    }
  }

  // ----- simple commands -----

  /** Words and operators, every operator followed by a word. */
  ghost predicate Plain(ts: seq<Lexeme>) {
    forall i: nat :: i < |ts| ==> PlainAt(ts, i)
  }

  predicate PlainAt(ts: seq<Lexeme>, i: nat)
    requires i < |ts|
  {
    ts[i].W? || (Op(ts[i]) && i + 1 < |ts| && ts[i + 1].W?)
  }

  /** Words less operators. */
  function Depth(ts: seq<Lexeme>): int {
    if ts == [] then 0 else Depth(ts[1..]) + if ts[0].W? then 1 else -1
  }

  lemma {:induction false} DepthJoin(a: seq<Lexeme>, b: seq<Lexeme>)
    ensures Depth(a + b) == Depth(a) + Depth(b)
    decreases |a|
  {
    if a == [] {
      assert a + b == b;
    } else {
      DepthJoin(a[1..], b);
      assert (a + b)[1..] == a[1..] + b;
    }
  }

  lemma PlainDrop(ts: seq<Lexeme>, k: nat)
    requires Plain(ts) && k <= |ts|
    ensures Plain(ts[k..])
  {
    var t := ts[k..];
    forall i: nat | i < |t| ensures PlainAt(t, i) {
      assert PlainAt(ts, k + i);
    }
  }

  lemma {:induction false} DepthNonnegative(ts: seq<Lexeme>)
    requires Plain(ts)
    ensures Depth(ts) >= 0
    decreases |ts|
  {
    if ts != [] {
      assert PlainAt(ts, 0);
      PlainDrop(ts, 1);
      if ts[0].W? {
        DepthNonnegative(ts[1..]);
      } else {
        PlainDrop(ts, 2);
        DepthNonnegative(ts[2..]);
        assert ts[1..][1..] == ts[2..];
      }
    }
  }

  lemma {:induction false} RedirsPlain(rs: seq<Redirection>, ts: seq<Lexeme>)
    requires Redirs(rs, ts)
    ensures Plain(ts) && Depth(ts) == 0
    decreases |rs|
  {
    forall i: nat | i < |ts| ensures PlainAt(ts, i) {
      var j := i / 2;
      assert ts[2 * j].Sym? && Means(ts[2 * j].c, rs[j]) && ts[2 * j + 1] == W(rs[j].file);
    }
    if rs != [] {
      var r, t := rs[1..], ts[2..];
      forall i | 0 <= i < |r| ensures t[2 * i].Sym? && Means(t[2 * i].c, r[i]) && t[2 * i + 1] == W(r[i].file) {
        assert ts[2 * (i + 1)].Sym? && Means(ts[2 * (i + 1)].c, rs[i + 1]) && ts[2 * (i + 1) + 1] == W(rs[i + 1].file);
      }
      RedirsPlain(r, t);
      assert ts[2 * 0].Sym? && ts[2 * 0 + 1] == W(rs[0].file);
      assert ts[1..][1..] == t;
    }
  }

  lemma PlainJoin(a: seq<Lexeme>, b: seq<Lexeme>)
    requires Plain(a) && Plain(b)
    ensures Plain(a + b)
  {
    forall i: nat | i < |a + b| ensures PlainAt(a + b, i) {
      assert if i < |a| then PlainAt(a, i) else PlainAt(b, i - |a|);
    }
  }

  lemma {:induction false} SimplePlain(argv: seq<Tok>, rs: seq<Redirection>, ts: seq<Lexeme>)
    requires Simple(argv, rs, ts)
    ensures Plain(ts) && Depth(ts) == |argv|
    decreases |argv|
  {
    hide Redirs; hide Plain;
    if argv == [] {
      RedirsPlain(rs, ts);
    } else {
      var front, last := argv[..|argv| - 1], argv[|argv| - 1];
      var r1: seq<Redirection>, r2: seq<Redirection>, t1: seq<Lexeme>, t2: seq<Lexeme> :| rs == r1 + r2 && ts == t1 + [W(last)] + t2 && Simple(front, r1, t1) && Redirs(r2, t2);
      SimplePlain(front, r1, t1);
      RedirsPlain(r2, t2);
      PlainWord(last);
      PlainJoin(t1, [W(last)]);
      PlainJoin(t1 + [W(last)], t2);
      DepthJoin(t1, [W(last)]);
      DepthJoin(t1 + [W(last)], t2);
    }
  }

  lemma PlainWord(t: Tok)
    ensures Plain([W(t)]) && Depth([W(t)]) == 1
  {
    assert [W(t)][1..] == [];
  }

  lemma InsideRedirs(ts: seq<Lexeme>, t1: seq<Lexeme>, l: Tok, t2: seq<Lexeme>, r2: seq<Redirection>, u1: seq<Lexeme>,
                     m: Tok, u2: seq<Lexeme>, s2: seq<Redirection>)
    requires ts == t1 + [W(l)] + t2 == u1 + [W(m)] + u2 && Redirs(r2, t2) && Redirs(s2, u2) && |t1| > |u1|
    ensures !PlainAt(t1, |t1| - 1)
  {
    var j, i := |s2| - |r2| - 1, |t1| - 1;
    RedirAt(s2, u2, j);
    assert ts[i] == u2[2 * j] && ts[i] == t1[i];
  }

  /** Where the last word of a simple command ends is determined by its lexemes. */
  lemma LastWord(ts: seq<Lexeme>, t1: seq<Lexeme>, l: Tok, t2: seq<Lexeme>, r2: seq<Redirection>, u1: seq<Lexeme>,
                 m: Tok, u2: seq<Lexeme>, s2: seq<Redirection>)
    requires ts == t1 + [W(l)] + t2 == u1 + [W(m)] + u2 && Redirs(r2, t2) && Redirs(s2, u2) && Plain(t1)
    ensures |t1| <= |u1|
  {
    if |t1| > |u1| { InsideRedirs(ts, t1, l, t2, r2, u1, m, u2, s2); }
  }

  lemma {:induction false} SimpleUnique(argv: seq<Tok>, rs: seq<Redirection>, argv2: seq<Tok>, rs2: seq<Redirection>,
                                        ts: seq<Lexeme>)
    requires Simple(argv, rs, ts) && Simple(argv2, rs2, ts)
    ensures argv == argv2 && rs == rs2
    decreases |argv|
  {
    hide Redirs; hide Plain; hide Depth;
    SimplePlain(argv, rs, ts);
    SimplePlain(argv2, rs2, ts);
    if argv == [] {
      SameRedirs(ts, rs, ts, rs2, ts);
    } else {
      var f, l, g, m := argv[..|argv| - 1], argv[|argv| - 1], argv2[..|argv2| - 1], argv2[|argv2| - 1];
      var r1: seq<Redirection>, r2: seq<Redirection>, t1: seq<Lexeme>, t2: seq<Lexeme> :| rs == r1 + r2 && ts == t1 + [W(l)] + t2 && Simple(f, r1, t1) && Redirs(r2, t2);
      var s1: seq<Redirection>, s2: seq<Redirection>, u1: seq<Lexeme>, u2: seq<Lexeme> :| rs2 == s1 + s2 && ts == u1 + [W(m)] + u2 && Simple(g, s1, u1) && Redirs(s2, u2);
      SimplePlain(f, r1, t1);
      SimplePlain(g, s1, u1);
      LastWord(ts, t1, l, t2, r2, u1, m, u2, s2);
      LastWord(ts, u1, m, u2, s2, t1, l, t2, r2);
      assert t1 == ts[..|t1|] == u1 && ts[|t1|] == W(l) == W(m) && t2 == ts[|t1| + 1..] == u2;
      SameRedirs(t2, r2, t2, s2, t2);
      SimpleUnique(f, r1, g, s1, t1);
      assert argv == f + [l] && argv2 == g + [m];
    }
  }

  /** A beginning of x made of words and operators that something may follow is as long as any other. */
  lemma PlainStops(x: seq<Lexeme>, ts: seq<Lexeme>, t: seq<Lexeme>)
    requires ts <= x && t <= x && Plain(ts) && Follows(x[|t|..], "|)&;")
    ensures |ts| <= |t|
  {
    if |t| < |ts| { PlainNext(x, ts, |t|); }
  }

  lemma PlainNext(x: seq<Lexeme>, ts: seq<Lexeme>, i: nat)
    requires ts <= x && Plain(ts) && i < |ts|
    ensures !Follows(x[i..], "|)&;") && (x[i].W? || Op(x[i]))
  {
    assert PlainAt(ts, i) && x[i..][0] == ts[i];
  }

  lemma NotBlock(x: seq<Lexeme>, c: Cmd, t: seq<Lexeme>)
    requires t <= x && Block(c, t)
    ensures Starts(x, "(")
  {
    assert t[0] == Sym('(');
  }

  /** A simple command up to where no word or operator follows is the only one. */
  lemma SimpleOnly(x: seq<Lexeme>, argv: seq<Tok>, rs: seq<Redirection>, ts: seq<Lexeme>)
    requires ts <= x && Simple(argv, rs, ts) && !Starts(x, "(") && Follows(x[|ts|..], "|)&;")
    ensures OnlyExec(x, Parsed(Wrap(Exec(argv), rs)), ts)
  {
    hide Block; hide Simple; hide Wrap; hide Plain; hide Depth;
    SimplePlain(argv, rs, ts);
    forall c, t | t <= x && ExecOf(c, t) && Follows(x[|t|..], "|)&;")
      ensures Parsed(Wrap(Exec(argv), rs)) == Parsed(c) && t == ts
    {
      if Block(c, t) {
        NotBlock(x, c, t);
      } else {
        var a: seq<Tok>, r: seq<Redirection> :| c == Wrap(Exec(a), r) && |a| < MAXARGS && Simple(a, r, t);
        SimplePlain(a, r, t);
        PlainStops(x, ts, t);
        PlainStops(x, t, ts);
        assert t == x[..|t|] == ts;
        SimpleUnique(argv, rs, a, r, ts);
      }
    }
  }

  /** No command starts with these words and operators when what follows them may not. */
  lemma SimpleStuck(x: seq<Lexeme>, ts: seq<Lexeme>, dummy: seq<Lexeme>)
    requires ts <= x && Plain(ts) && !Starts(x, "(") && |x| > |ts| && !x[|ts|].W? && !Op(x[|ts|])
    requires !Starts(x[|ts|..], "|)&;")
    ensures OnlyExec(x, Panic, dummy)
  {
    hide Block; hide Simple; hide Wrap; hide Depth; hide ExecOf;
    forall c, t ensures !(t <= x && ExecOf(c, t) && Follows(x[|t|..], "|)&;")) {
      if t <= x && ExecOf(c, t) && Follows(x[|t|..], "|)&;") {
        ExecPlain(x, c, t);
        PlainStops(x, ts, t);
        if |t| > |ts| { PlainNext(x, t, |ts|); }
      }
    }
  }

  lemma ExecPlain(x: seq<Lexeme>, c: Cmd, t: seq<Lexeme>)
    requires t <= x && ExecOf(c, t) && !Starts(x, "(")
    ensures Plain(t) && Depth(t) < MAXARGS
  {
    hide Block; hide Simple; hide Wrap; hide Depth; hide Plain;
    if Block(c, t) {
      NotBlock(x, c, t);
    } else {
      var a: seq<Tok>, r: seq<Redirection> :| c == Wrap(Exec(a), r) && |a| < MAXARGS && Simple(a, r, t);
      SimplePlain(a, r, t);
    }
  }

  /** Too many words. */
  lemma TooMany(x: seq<Lexeme>, ts: seq<Lexeme>, dummy: seq<Lexeme>)
    requires ts <= x && Plain(ts) && Depth(ts) >= MAXARGS && !Starts(x, "(")
    ensures OnlyExec(x, Panic, dummy)
  {
    hide Plain; hide Depth; hide ExecOf;
    forall c, t ensures !(t <= x && ExecOf(c, t) && Follows(x[|t|..], "|)&;")) {
      if t <= x && ExecOf(c, t) && Follows(x[|t|..], "|)&;") {
        ExecPlain(x, c, t);
        PlainStops(x, ts, t);
        PlainDrop(t, |ts|);
        DepthNonnegative(t[|ts|..]);
        assert t == ts + t[|ts|..];
        DepthJoin(ts, t[|ts|..]);
      }
    }
  }

  /** Words and operators start with redirections that no operator follows. */
  lemma {:induction false} SomeRedirs(v: seq<Lexeme>) returns (r: seq<Redirection>, w: seq<Lexeme>)
    requires Plain(v)
    ensures w <= v && Redirs(r, w) && !Starts(v[|w|..], "<>+")
    decreases |v|
  {
    if v == [] || v[0].W? {
      r, w := [], [];
      assert v[0..] == v;
    } else {
      assert PlainAt(v, 0);
      PlainDrop(v, 2);
      r, w := SomeRedirs(v[2..]);
      var op, file := v[0].c, v[1].t;
      var first := if op == '<' then Redirection(file, false, 0) else Redirection(file, true, 1);
      assert v[2..][|w|..] == v[|w| + 2..];
      FrontRedir(op, first, r, w);
      r, w := [first] + r, [v[0], v[1]] + w;
    }
  }

  lemma FrontRedir(op: char, first: Redirection, r: seq<Redirection>, w: seq<Lexeme>)
    requires Redirs(r, w) && Means(op, first)
    ensures Redirs([first] + r, [Sym(op), W(first.file)] + w)
  {
    var r', w' := [first] + r, [Sym(op), W(first.file)] + w;
    forall i | 0 <= i < |r'| ensures w'[2 * i].Sym? && Means(w'[2 * i].c, r'[i]) && w'[2 * i + 1] == W(r'[i].file) {
      if i > 0 {
        assert w'[2 * i] == w[2 * (i - 1)] && w'[2 * i + 1] == w[2 * (i - 1) + 1] && r'[i] == r[i - 1];
      }
    }
  }

  /** Where the redirections after these words and operators fail, there is no command. */
  lemma RedirsFail(x: seq<Lexeme>, ts: seq<Lexeme>, rs: seq<Redirection>, tr: seq<Lexeme>, dummy: seq<Lexeme>)
    requires ts <= x && Plain(ts) && !Starts(x, "(") && OnlyRedirs(x[|ts|..], false, rs, tr)
    ensures OnlyExec(x, Panic, dummy)
  {
    hide Plain; hide Depth; hide ExecOf; hide Redirs;
    forall c, t ensures !(t <= x && ExecOf(c, t) && Follows(x[|t|..], "|)&;")) {
      if t <= x && ExecOf(c, t) && Follows(x[|t|..], "|)&;") {
        ExecPlain(x, c, t);
        PlainStops(x, ts, t);
        PlainDrop(t, |ts|);
        var r, w := SomeRedirs(t[|ts|..]);
        NotMoreRedirs(x, |ts|, t, w);
      }
    }
  }

  lemma NotMoreRedirs(x: seq<Lexeme>, n: nat, t: seq<Lexeme>, w: seq<Lexeme>)
    requires t <= x && n <= |t| && w <= t[n..] && !Starts(t[n..][|w|..], "<>+") && Follows(x[|t|..], "|)&;")
    ensures w <= x[n..] && !Starts(x[n..][|w|..], "<>+")
  {
    assert x == t + x[|t|..];
    assert x[n..] == t[n..] + x[|t|..];
    if |w| < |t[n..]| {
      assert x[n..][|w|..][0] == t[n..][|w|..][0];
    } else {
      assert x[n..][|w|..] == x[|t|..];
    }
  }

  // ----- blocks, pipes, lines -----

  lemma NoBlock(x: seq<Lexeme>, dummy: seq<Lexeme>)
    requires !Starts(x, "(")
    ensures OnlyBlock(x, Panic, dummy)
  {
    hide Block;
    forall c, t ensures !(t <= x && Block(c, t)) {
      if t <= x && Block(c, t) { NotBlock(x, c, t); }
    }
  }

  /** The parts of a block at the start of x. */
  lemma BlockParts(x: seq<Lexeme>, cmd: Cmd,
                   t: seq<Lexeme>) returns (c: Cmd, rs: seq<Redirection>, a: seq<Lexeme>, b: seq<Lexeme>)
    requires t <= x && Block(cmd, t)
    ensures cmd == Wrap(c, rs) && t == [Sym('(')] + a + [Sym(')')] + b && LineOf(c, a) && Redirs(rs, b)
    ensures a <= x[1..] && Starts(x[1..][|a|..], ")") && |x| > |a| + 1 && b <= x[|a| + 2..]
    ensures x[|a| + 2..][|b|..] == x[|t|..]
  {
    hide LineOf; hide Redirs; hide Wrap;
    c, rs, a, b :| cmd == Wrap(c, rs) && t == [Sym('(')] + a + [Sym(')')] + b && LineOf(c, a) && Redirs(rs, b);
    assert x == t + x[|t|..];
    assert x[1..] == a + ([Sym(')')] + b + x[|t|..]);
    assert x[1..][|a|..] == [Sym(')')] + b + x[|t|..];
    assert x[|a| + 2..] == b + x[|t|..];
  }

  lemma BlockOnly(x: seq<Lexeme>, r: Parse, a: seq<Lexeme>, ok: bool, rs: seq<Redirection>, b: seq<Lexeme>)
    requires Starts(x, "(") && OnlyLine(x[1..], r, a) && (r.Parsed? ==> a <= x[1..])
    requires r.Parsed? && Starts(x[1..][|a|..], ")") ==> OnlyRedirs(x[|a| + 2..], ok, rs, b)
    ensures if r.Parsed? && Starts(x[1..][|a|..], ")") && ok then OnlyBlock(x, Parsed(Wrap(r.cmd, rs)), [Sym('(')] + a + [Sym(')')] + b)
            else forall dummy :: OnlyBlock(x, Panic, dummy)
  {
    hide Block; hide LineOf; hide Redirs; hide Wrap;
    forall cmd, t | t <= x && Block(cmd, t) && Follows(x[|t|..], "|)&;")
      ensures r.Parsed? && Starts(x[1..][|a|..], ")") && ok && cmd == Wrap(r.cmd, rs)
      ensures t == [Sym('(')] + a + [Sym(')')] + b
    {
      var c2, rs2, a2, b2 := BlockParts(x, cmd, t);
      assert a2 <= x[1..] && LineOf(c2, a2) && Follows(x[1..][|a2|..], ")");
      assert b2 <= x[|a| + 2..] && Redirs(rs2, b2) && !Starts(x[|a| + 2..][|b2|..], "<>+");
    }
  }

  lemma ExecOnlyBlock(x: seq<Lexeme>, r: Parse, ts: seq<Lexeme>)
    requires Starts(x, "(") && OnlyBlock(x, r, ts)
    ensures OnlyExec(x, r, ts)
  {
    hide Block; hide Simple; hide Wrap;
    assert x[0..] == x;
    forall c, t | t <= x && ExecOf(c, t) && Follows(x[|t|..], "|)&;") ensures Block(c, t) {
      if !Block(c, t) {
        var a: seq<Tok>, rs: seq<Redirection> :| c == Wrap(Exec(a), rs) && |a| < MAXARGS && Simple(a, rs, t);
        SimplePlain(a, rs, t);
        if t != [] { PlainNext(x, t, 0); }
      }
    }
  }

  lemma PipeOnly(x: seq<Lexeme>, r: Parse, a: seq<Lexeme>, right: Parse, b: seq<Lexeme>)
    requires OnlyExec(x, r, a) && (r.Parsed? ==> a <= x && (Starts(x[|a|..], "|") ==> OnlyPipe(x[|a| + 1..], right, b)))
    ensures r.Panic? ==> OnlyPipe(x, Panic, a)
    ensures r.Parsed? && !Starts(x[|a|..], "|") ==> OnlyPipe(x, r, a)
    ensures r.Parsed? && Starts(x[|a|..], "|") ==> OnlyPipe(x, if right.Panic? then Panic else Parsed(Pipe(r.cmd, right.cmd)), a + [Sym('|')] + b)
  {
    hide ExecOf; hide PipeOf;
    forall c, t | t <= x && PipeOf(c, t) && Follows(x[|t|..], ")&;")
      ensures r.Parsed?
      ensures if Starts(x[|a|..], "|") then right.Parsed? && c == Pipe(r.cmd, right.cmd) && t == a + [Sym('|')] + b else c == r.cmd && t == a
    {
      if ExecOf(c, t) {
        assert Follows(x[|t|..], "|)&;");
      } else {
        var a2, b2 := PipeParts(c, t);
        SplitAt(x, t, a2, '|', b2);
        assert a2 <= x && ExecOf(c.left, a2) && Follows(x[|a2|..], "|)&;");
        assert b2 <= x[|a| + 1..] && PipeOf(c.right, b2) && Follows(x[|a| + 1..][|b2|..], ")&;");
      }
    }
  }

  lemma PipeParts(c: Cmd, t: seq<Lexeme>) returns (a: seq<Lexeme>, b: seq<Lexeme>)
    requires PipeOf(c, t) && !ExecOf(c, t)
    ensures c.Pipe? && t == a + [Sym('|')] + b && ExecOf(c.left, a) && PipeOf(c.right, b)
  {
    hide ExecOf;
    a, b :| t == a + [Sym('|')] + b && ExecOf(c.left, a) && PipeOf(c.right, b);
  }

  lemma LineParts(c: Cmd, t: seq<Lexeme>) returns (a: seq<Lexeme>, b: seq<Lexeme>)
    requires LineOf(c, t) && !BackOf(c, t)
    ensures c.List? && t == a + [Sym(';')] + b && BackOf(c.left, a) && LineOf(c.right, b)
  {
    hide BackOf;
    a, b :| t == a + [Sym(';')] + b && BackOf(c.left, a) && LineOf(c.right, b);
  }

  lemma SplitAt(x: seq<Lexeme>, t: seq<Lexeme>, a: seq<Lexeme>, sym: char, b: seq<Lexeme>)
    requires t <= x && t == a + [Sym(sym)] + b
    ensures a <= x && |x| > |a| && x[|a|] == Sym(sym) && x[|a|..] != [] && x[|a|..][0] == Sym(sym)
    ensures b <= x[|a| + 1..] && x[|a| + 1..][|b|..] == x[|t|..]
  {
    assert x == t + x[|t|..];
    assert x == a + ([Sym(sym)] + b + x[|t|..]);
    assert x[|a| + 1..] == b + x[|t|..];
  }

  function Backs(c: Cmd, n: nat): Cmd {
    if n == 0 then c else Back(Backs(c, n - 1))
  }

  /** A command in the background is a pipe and ampersands; the pipe is the one parsed. */
  lemma {:induction false} BackTail(x: seq<Lexeme>, r: Parse, p: seq<Lexeme>, c: Cmd, t: seq<Lexeme>)
    requires OnlyPipe(x, r, p) && t <= x && BackOf(c, t) && Follows(x[|t|..], ")&;")
    ensures r.Parsed? && p <= t && (forall i :: |p| <= i < |t| ==> t[i] == Sym('&')) && c == Backs(r.cmd, |t| - |p|)
    decreases |t|
  {
    hide PipeOf;
    if !PipeOf(c, t) {
      var a :| t == a + [Sym('&')] && BackOf(c.cmd, a);
      assert t == a + [Sym('&')] + [];
      SplitAt(x, t, a, '&', []);
      BackTail(x, r, p, c.cmd, a);
    }
  }

  lemma StartsAmp(x: seq<Lexeme>, ts: seq<Lexeme>, i: nat)
    requires ts <= x && i < |ts| && ts[i] == Sym('&')
    ensures Starts(x[i..], "&") && !Follows(x[i..], ");")
  {
  }

  lemma BackOnly(x: seq<Lexeme>, r: Parse, p: seq<Lexeme>, n: nat, ts: seq<Lexeme>)
    requires OnlyPipe(x, r, p) && (r.Parsed? ==> ts <= x && p <= ts && |ts| == |p| + n && !Starts(x[|ts|..], "&"))
    requires r.Parsed? ==> forall i :: |p| <= i < |ts| ==> ts[i] == Sym('&')
    ensures OnlyBack(x, if r.Parsed? then Parsed(Backs(r.cmd, n)) else Panic, ts)
  {
    hide BackOf; hide OnlyPipe; hide Backs;
    forall c, t | t <= x && BackOf(c, t) && Follows(x[|t|..], ");")
      ensures r.Parsed? && c == Backs(r.cmd, n) && t == ts
    {
      BackTail(x, r, p, c, t);
      assert |t| == |ts| ==> t == x[..|t|] == ts;
      if |t| < |ts| {
        StartsAmp(x, ts, |t|);
      } else if |ts| < |t| {
        StartsAmp(x, t, |ts|);
      }
    }
  }

  lemma LineOnly(x: seq<Lexeme>, r: Parse, a: seq<Lexeme>, right: Parse, b: seq<Lexeme>)
    requires OnlyBack(x, r, a) && (r.Parsed? ==> a <= x && (Starts(x[|a|..], ";") ==> OnlyLine(x[|a| + 1..], right, b)))
    ensures r.Panic? ==> OnlyLine(x, Panic, a)
    ensures r.Parsed? && !Starts(x[|a|..], ";") ==> OnlyLine(x, r, a)
    ensures r.Parsed? && Starts(x[|a|..], ";") ==> OnlyLine(x, if right.Panic? then Panic else Parsed(List(r.cmd, right.cmd)), a + [Sym(';')] + b)
  {
    hide BackOf; hide LineOf;
    forall c, t | t <= x && LineOf(c, t) && Follows(x[|t|..], ")")
      ensures r.Parsed?
      ensures if Starts(x[|a|..], ";") then right.Parsed? && c == List(r.cmd, right.cmd) && t == a + [Sym(';')] + b else c == r.cmd && t == a
    {
      if BackOf(c, t) {
        assert Follows(x[|t|..], ");");
      } else {
        var a2, b2 := LineParts(c, t);
        SplitAt(x, t, a2, ';', b2);
        assert a2 <= x && BackOf(c.left, a2) && Follows(x[|a2|..], ");");
        assert b2 <= x[|a| + 1..] && LineOf(c.right, b2) && Follows(x[|a| + 1..][|b2|..], ")");
      }
    }
  }
}
