/**
 sh.c's command parser. Tokens are ranges of the line; after parsing, NULs are
 written over the line in place to turn every range into a C string.
 */
module Shell {
  import opened ShellGrammar

  // ----- scanning -----

  /** Skips white space. */
  method SkipWhite(s: seq<char>, es: nat, i: nat) returns (k: nat)
    requires Line(s, es) && i <= es
    ensures k == AfterWhite(s, es, i)
  {
    k := i;
    while k < es && White(s[k])
      invariant i <= k <= es && AfterWhite(s, es, i) == AfterWhite(s, es, k)
    {
      k := k + 1;
    }
  }

  lemma {:induction false} LexSkip(s: seq<char>, es: nat, i: nat)
    requires Line(s, es) && i <= es
    ensures Lex(s, es, i) == Lex(s, es, AfterWhite(s, es, i))
    ensures AfterWhite(s, es, AfterWhite(s, es, i)) == AfterWhite(s, es, i)
  {
    hide AfterWhite; hide White; hide Word; hide Symbol; hide RunEnd;
    WhiteOnce(s, es, AfterWhite(s, es, i));
  }

  lemma WhiteOnce(s: seq<char>, es: nat, k: nat)
    requires Line(s, es) && k <= es && !White(s[k])
    ensures AfterWhite(s, es, k) == k
  {
  }

  /** The position after white space, and whether one of toks stands there. */
  method Peek(s: seq<char>, es: nat, ps: nat, toks: seq<char>) returns (k: nat, r: bool)
    requires Line(s, es) && ps <= es
    ensures ps <= k <= es && !White(s[k]) && Lex(s, es, ps) == Lex(s, es, k)
    ensures r <==> k < es && s[k] in toks
    ensures toks == "<>" ==> (r <==> Starts(Lex(s, es, k), "<>+"))
    ensures (forall c :: c in toks ==> Symbol(c) && c != '>') ==> (r <==> Starts(Lex(s, es, k), toks))
  {
    hide Lex;
    k := SkipWhite(s, es, ps);
    r := s[k] != NUL && s[k] in toks;
    LexSkip(s, es, ps);
    if k < es {
      LexHead(s, es, k);
    } else {
      LexEnd(s, es, k);
    }
  }

  /** What the lexemes from a character on start with. */
  lemma LexHead(s: seq<char>, es: nat, k: nat)
    requires Line(s, es) && k < es && !White(s[k])
    ensures Lex(s, es, k) != []
    ensures Symbol(s[k]) ==> Lex(s, es, k)[0] == Sym(s[k]) || (s[k] == '>' && Lex(s, es, k)[0] == Sym('+'))
    ensures !Symbol(s[k]) ==> Lex(s, es, k)[0].W?
  {
    hide Lex;
    WhiteOnce(s, es, k);
    if s[k] == '>' && s[k + 1] == '>' {
      LexPlus(s, es, k, k);
    } else if Symbol(s[k]) {
      LexSymbol(s, es, k, k);
    } else {
      LexWord(s, es, k, k);
    }
  }

  /** What is left after the lexemes read. */
  lemma Rest(s: seq<char>, es: nat, ps: nat, k: nat, ts: seq<Lexeme>)
    requires Line(s, es) && ps <= es && k <= es && Consumed(s, es, ps, k, ts)
    ensures ts <= Lex(s, es, ps) && Lex(s, es, ps)[|ts|..] == Lex(s, es, k)
  {
    hide Lex;
  }

  /** Scans one token: NUL when there is none, 'a' for a word, '+' for >>, else the symbol. */
  method Gettoken(s: seq<char>, es: nat, ps: nat) returns (k: nat, tok: char, q: nat, eq: nat)
    requires Line(s, es) && ps <= es
    ensures ps <= k <= es && !White(s[k])
    ensures tok == NUL ==> Lex(s, es, ps) == [] == Lex(s, es, k)
    ensures tok != NUL ==> ps < k && Lex(s, es, ps) == [if tok == 'a' then W(Tok(q, eq)) else Sym(tok)] + Lex(s, es, k)
    ensures Symbol(s[ps]) ==> tok == s[ps] || (s[ps] == '>' && tok == '+')
  {
    hide Lex; hide AfterWhite;
    q := SkipWhite(s, es, ps);
    if Symbol(s[ps]) { SymbolStays(s, es, ps); }
    tok := s[q];
    eq := q;
    if s[q] == NUL {
      LexEnd(s, es, ps);
    } else if s[q] in "|();&<" {
      LexSymbol(s, es, ps, q);
      eq := q + 1;
    } else if s[q] == '>' {
      eq := q + 1;
      if s[eq] == '>' {
        LexPlus(s, es, ps, q);
        tok := '+';
        eq := eq + 1;
      } else {
        LexSymbol(s, es, ps, q);
      }
    } else {
      LexWord(s, es, ps, q);
      tok := 'a';
      while eq < es && !White(s[eq]) && !Symbol(s[eq])
        invariant q <= eq <= es && RunEnd(s, es, q) == RunEnd(s, es, eq)
      {
        eq := eq + 1;
      }
    }
    k := SkipWhite(s, es, eq);
    LexSkip(s, es, eq);
    if tok == NUL { LexEnd(s, es, k); }
  }

  lemma LexEnd(s: seq<char>, es: nat, ps: nat)
    requires Line(s, es) && ps <= es && AfterWhite(s, es, ps) == es
    ensures Lex(s, es, ps) == []
  {
  }

  lemma LexPlus(s: seq<char>, es: nat, ps: nat, q: nat)
    requires Line(s, es) && ps <= es && q == AfterWhite(s, es, ps) && q < es && s[q] == '>' && s[q + 1] == '>'
    ensures q + 2 <= es && Lex(s, es, ps) == [Sym('+')] + Lex(s, es, q + 2)
  {
  }

  lemma LexSymbol(s: seq<char>, es: nat, ps: nat, q: nat)
    requires Line(s, es) && ps <= es && q == AfterWhite(s, es, ps) && q < es && Symbol(s[q])
    requires !(s[q] == '>' && s[q + 1] == '>')
    ensures Lex(s, es, ps) == [Sym(s[q])] + Lex(s, es, q + 1)
  {
  }

  lemma LexWord(s: seq<char>, es: nat, ps: nat, q: nat)
    requires Line(s, es) && ps <= es && q == AfterWhite(s, es, ps) && q < es && !Symbol(s[q])
    ensures q < RunEnd(s, es, q) && Lex(s, es, ps) == [W(Tok(q, RunEnd(s, es, q)))] + Lex(s, es, RunEnd(s, es, q))
  {
  }

  lemma SymbolStays(s: seq<char>, es: nat, ps: nat)
    requires Line(s, es) && ps <= es && Symbol(s[ps])
    ensures AfterWhite(s, es, ps) == ps
  {
  }

  /** From ps to k the lexemes ts were read. */
  ghost predicate Consumed(s: seq<char>, es: nat, ps: nat, k: nat, ts: seq<Lexeme>)
    requires Line(s, es) && ps <= es && k <= es
  {
    Lex(s, es, ps) == ts + Lex(s, es, k)
  }

  lemma Chain(s: seq<char>, es: nat, i: nat, k: nat, j: nat, a: seq<Lexeme>, b: seq<Lexeme>)
    requires Line(s, es) && i <= es && k <= es && j <= es && Consumed(s, es, i, k, a)
    requires Lex(s, es, k) == b + Lex(s, es, j) || (b == [] && Lex(s, es, k) == Lex(s, es, j)) || Consumed(s, es, k, j, b)
    ensures Consumed(s, es, i, j, a + b) && (b == [] ==> a + b == a)
  {
    assert a + b + Lex(s, es, j) == a + (b + Lex(s, es, j));
  }

  lemma Begin(s: seq<char>, es: nat, i: nat, k: nat)
    requires Line(s, es) && i <= es && k <= es && Lex(s, es, i) == Lex(s, es, k)
    ensures Consumed(s, es, i, k, [])
  {
  }

  lemma LineBound(s: seq<char>, es: nat)
    requires Line(s, es)
    ensures es < |s|
  {
  }

  // ----- parsing -----

  method Parseredirs(s: seq<char>, es: nat,
                     ps: nat) returns (k: nat, ok: bool, rs: seq<Redirection>, ghost ts: seq<Lexeme>)
    requires Line(s, es) && ps <= es
    ensures ps <= k <= es
    ensures ok ==> Consumed(s, es, ps, k, ts) && Redirs(rs, ts) && !Starts(Lex(s, es, k), "<>+")
    ensures OnlyRedirs(Lex(s, es, ps), ok, rs, ts)
  {
    hide Lex; hide Consumed; hide Line; hide Redirs; hide Simple; hide Block; hide ExecOf; hide PipeOf; hide BackOf;
    hide LineOf; hide Wrap; hide White; hide Word;
    hide OnlyRedirs; hide OnlyBlock; hide OnlyExec; hide OnlyPipe; hide OnlyBack; hide OnlyLine; hide Plain; hide Depth;
    LineBound(s, es);
    ghost var x := Lex(s, es, ps);
    rs, ts := [], [];
    NoRedirs();
    var more;
    k, more := Peek(s, es, ps, "<>");
    Begin(s, es, ps, k);
    while more
      invariant ps <= k <= es && (more <==> Starts(Lex(s, es, k), "<>+")) && (more ==> k < es && s[k] in "<>")
      invariant Consumed(s, es, ps, k, ts) && Redirs(rs, ts)
      decreases es - k
    {
      var op, q, eq, tok;
      ghost var k0 := k;
      Rest(s, es, ps, k, ts);
      k, op, q, eq := Gettoken(s, es, k);
      ghost var k1 := k;
      Chain(s, es, ps, k0, k, ts, [Sym(op)]);
      k, tok, q, eq := Gettoken(s, es, k);
      if tok != 'a' {
        assert x[|ts| + 1..] == x[|ts|..][1..] == Lex(s, es, k1);
        RedirsStuck(x, rs, ts);
        return k, false, rs, ts;
      }
      Chain(s, es, ps, k1, k, ts + [Sym(op)], [W(Tok(q, eq))]);
      var r := if op == '<' then Redirection(Tok(q, eq), false, 0) else Redirection(Tok(q, eq), true, 1);
      OneRedir(rs, ts, op, r);
      rs, ts := rs + [r], ts + [Sym(op)] + [W(Tok(q, eq))];
      ghost var k2 := k;
      k, more := Peek(s, es, k, "<>");
      Chain(s, es, ps, k2, k, ts, []);
    }
    Rest(s, es, ps, k, ts);
    RedirsUnique(x, rs, ts);
    ok := true;
  }

  lemma NoRedirs()
    ensures Redirs([], [])
  {
  }

  lemma OneRedir(rs: seq<Redirection>, ts: seq<Lexeme>, op: char, r: Redirection)
    requires Redirs(rs, ts) && op in "<>+" && Means(op, r)
    ensures Redirs(rs + [r], ts + [Sym(op)] + [W(r.file)])
  {
  }

  method Parseblock(s: seq<char>, es: nat, ps: nat) returns (k: nat, r: Parse, ghost ts: seq<Lexeme>)
    requires Line(s, es) && ps <= es
    ensures ps <= k <= es
    ensures r.Parsed? ==> Consumed(s, es, ps, k, ts) && Block(r.cmd, ts)
    ensures OnlyBlock(Lex(s, es, ps), r, ts)
    decreases es - ps, 0
  {
    hide Lex; hide Consumed; hide Line; hide Redirs; hide Simple; hide Block; hide ExecOf; hide PipeOf; hide BackOf;
    hide LineOf; hide Wrap; hide White; hide Word;
    hide OnlyRedirs; hide OnlyBlock; hide OnlyExec; hide OnlyPipe; hide OnlyBack; hide OnlyLine; hide Plain; hide Depth;
    LineBound(s, es);
    ghost var x := Lex(s, es, ps);
    ts := [];
    var yes, tok, q, eq, ok, rs;
    ghost var a, b;
    k, yes := Peek(s, es, ps, "(");
    if !yes {
      NoBlock(x, ts);
      return k, Panic, ts;
    }
    k, tok, q, eq := Gettoken(s, es, k);
    ghost var x1 := Lex(s, es, k);
    assert x[1..] == x1;
    ghost var k1 := k;
    k, r, a := Parseline(s, es, k);
    if r.Panic? {
      BlockOnly(x, r, a, false, [], []);
      return;
    }
    Rest(s, es, k1, k, a);
    k, yes := Peek(s, es, k, ")");
    if !yes {
      BlockOnly(x, r, a, false, [], []);
      return k, Panic, ts;
    }
    k, tok, q, eq := Gettoken(s, es, k);
    ghost var x2 := Lex(s, es, k);
    BlockTail(x, x1, a, x2);
    ghost var k2 := k;
    k, ok, rs, b := Parseredirs(s, es, k);
    BlockOnly(x, r, a, ok, rs, b);
    if !ok {
      return k, Panic, ts;
    }
    Rest(s, es, k2, k, b);
    ts := [Sym('(')] + a + [Sym(')')] + b;
    BlockRead(s, es, ps, k, a, x2, b);
    BlockIs(r.cmd, rs, a, b);
    r := Parsed(Wrap(r.cmd, rs));
  }

  lemma BlockTail(x: seq<Lexeme>, x1: seq<Lexeme>, a: seq<Lexeme>, x2: seq<Lexeme>)
    requires x == [Sym('(')] + x1 && a <= x1 && x1[|a|..] == [Sym(')')] + x2
    ensures |x| >= |a| + 2 && x[|a| + 2..] == x2 && x == [Sym('(')] + a + [Sym(')')] + x2
  {
    assert x1 == a + x1[|a|..];
  }

  lemma BlockRead(s: seq<char>, es: nat, ps: nat, k: nat, a: seq<Lexeme>, x2: seq<Lexeme>, b: seq<Lexeme>)
    requires Line(s, es) && ps <= es && k <= es
    requires Lex(s, es, ps) == [Sym('(')] + a + [Sym(')')] + x2 && b <= x2 && x2[|b|..] == Lex(s, es, k)
    ensures Consumed(s, es, ps, k, [Sym('(')] + a + [Sym(')')] + b)
  {
    hide Lex;
    assert x2 == b + x2[|b|..];
  }

  lemma BlockIs(c: Cmd, rs: seq<Redirection>, a: seq<Lexeme>, b: seq<Lexeme>)
    requires LineOf(c, a) && Redirs(rs, b)
    ensures Block(Wrap(c, rs), [Sym('(')] + a + [Sym(')')] + b)
  {
    hide Wrap; hide Redirs; hide LineOf;
  }

  method Parseexec(s: seq<char>, es: nat, ps: nat) returns (k: nat, r: Parse, ghost ts: seq<Lexeme>)
    requires Line(s, es) && ps <= es
    ensures ps <= k <= es
    ensures r.Parsed? ==> Consumed(s, es, ps, k, ts) && ExecOf(r.cmd, ts)
    ensures OnlyExec(Lex(s, es, ps), r, ts)
    decreases es - ps, 1
  {
    hide Lex; hide Consumed; hide Line; hide Redirs; hide Simple; hide Block; hide ExecOf; hide PipeOf; hide BackOf;
    hide LineOf; hide Wrap; hide White; hide Word;
    hide OnlyRedirs; hide OnlyBlock; hide OnlyExec; hide OnlyPipe; hide OnlyBack; hide OnlyLine; hide Plain; hide Depth;
    LineBound(s, es);
    ghost var x := Lex(s, es, ps);
    ts := [];
    var block;
    k, block := Peek(s, es, ps, "(");
    Begin(s, es, ps, k);
    ghost var k0 := k;
    if block {
      k, r, ts := Parseblock(s, es, k);
      if r.Parsed? {
        Chain(s, es, ps, k0, k, [], ts);
        assert [] + ts == ts;
        ExecIsBlock(r.cmd, ts);
      }
      ExecOnlyBlock(x, r, ts);
      return;
    }
    var ok, rs, more, stop;
    var argv: seq<Tok> := [];
    ghost var tr;
    k, ok, rs, ts := Parseredirs(s, es, k);
    if !ok {
      NoWords([], []);
      SimplePlain([], [], []);
      assert x[0..] == x;
      RedirsFail(x, [], rs, ts, ts);
      return k, Panic, ts;
    }
    Chain(s, es, ps, k0, k, [], ts);
    assert [] + ts == ts;
    NoWords(rs, ts);
    ghost var k1 := k;
    k, stop := Peek(s, es, k, "|)&;");
    Chain(s, es, ps, k1, k, ts, []);
    while !stop
      invariant ps <= k <= es && |argv| < MAXARGS && Consumed(s, es, ps, k, ts) && Simple(argv, rs, ts)
      invariant !Starts(Lex(s, es, k), "<>+") && (stop <==> Starts(Lex(s, es, k), "|)&;"))
      decreases es - k
    {
      ghost var k2 := k;
      var tok, q, eq;
      Rest(s, es, ps, k, ts);
      SimplePlain(argv, rs, ts);
      k, tok, q, eq := Gettoken(s, es, k);
      if tok == NUL {
        Chain(s, es, ps, k2, k, ts, []);
        break;
      }
      if tok != 'a' {
        SimpleStuck(x, ts, ts);
        return k, Panic, ts;
      }
      Chain(s, es, ps, k2, k, ts, [W(Tok(q, eq))]);
      ghost var next := ts + [W(Tok(q, eq))];
      Rest(s, es, ps, k, next);
      PlainWord(Tok(q, eq));
      PlainJoin(ts, [W(Tok(q, eq))]);
      DepthJoin(ts, [W(Tok(q, eq))]);
      argv := argv + [Tok(q, eq)];
      if |argv| >= MAXARGS {
        TooMany(x, next, ts);
        return k, Panic, ts;
      }
      ghost var k3 := k;
      k, ok, more, tr := Parseredirs(s, es, k);
      if !ok {
        RedirsFail(x, next, more, tr, ts);
        return k, Panic, ts;
      }
      Chain(s, es, ps, k3, k, ts + [W(Tok(q, eq))], tr);
      OneWord(argv, rs, ts, more, tr);
      rs, ts := rs + more, ts + [W(Tok(q, eq))] + tr;
      ghost var k4 := k;
      k, stop := Peek(s, es, k, "|)&;");
      Chain(s, es, ps, k4, k, ts, []);
    }
    ExecIsSimple(argv, rs, ts);
    Rest(s, es, ps, k, ts);
    SimpleOnly(x, argv, rs, ts);
    r := Parsed(Wrap(Exec(argv), rs));
  }

  lemma NoWords(rs: seq<Redirection>, ts: seq<Lexeme>)
    requires Redirs(rs, ts)
    ensures Simple([], rs, ts)
  {
  }

  lemma OneWord(argv: seq<Tok>, rs: seq<Redirection>, ts: seq<Lexeme>, more: seq<Redirection>, tr: seq<Lexeme>)
    requires argv != [] && Simple(argv[..|argv| - 1], rs, ts) && Redirs(more, tr)
    ensures Simple(argv, rs + more, ts + [W(argv[|argv| - 1])] + tr)
  {
    hide Redirs;
  }

  lemma ExecIsBlock(cmd: Cmd, ts: seq<Lexeme>)
    requires Block(cmd, ts)
    ensures ExecOf(cmd, ts)
  {
    hide Block;
  }

  lemma ExecIsSimple(argv: seq<Tok>, rs: seq<Redirection>, ts: seq<Lexeme>)
    requires Simple(argv, rs, ts) && |argv| < MAXARGS
    ensures ExecOf(Wrap(Exec(argv), rs), ts)
  {
    hide Block; hide Simple; hide Wrap;
  }

  method Parsepipe(s: seq<char>, es: nat, ps: nat) returns (k: nat, r: Parse, ghost ts: seq<Lexeme>)
    requires Line(s, es) && ps <= es
    ensures ps <= k <= es
    ensures r.Parsed? ==> Consumed(s, es, ps, k, ts) && PipeOf(r.cmd, ts)
    ensures OnlyPipe(Lex(s, es, ps), r, ts)
    decreases es - ps, 2
  {
    hide Lex; hide Consumed; hide Line; hide Redirs; hide Simple; hide Block; hide ExecOf; hide PipeOf; hide BackOf;
    hide LineOf; hide Wrap; hide White; hide Word;
    hide OnlyRedirs; hide OnlyBlock; hide OnlyExec; hide OnlyPipe; hide OnlyBack; hide OnlyLine; hide Plain; hide Depth;
    LineBound(s, es);
    ghost var x := Lex(s, es, ps);
    var yes, tok, q, eq, right;
    ghost var b;
    k, r, ts := Parseexec(s, es, ps);
    if r.Panic? {
      PipeOnly(x, r, ts, Panic, []);
      return;
    }
    ghost var k0 := k;
    k, yes := Peek(s, es, k, "|");
    Chain(s, es, ps, k0, k, ts, []);
    PipeIsExec(r.cmd, ts);
    Rest(s, es, ps, k, ts);
    if !yes {
      PipeOnly(x, r, ts, Panic, []);
    } else {
      ghost var k1 := k;
      k, tok, q, eq := Gettoken(s, es, k);
      Chain(s, es, ps, k1, k, ts, [Sym('|')]);
      ghost var k2 := k;
      assert x[|ts| + 1..] == x[|ts|..][1..] == Lex(s, es, k2);
      k, right, b := Parsepipe(s, es, k);
      PipeOnly(x, r, ts, right, b);
      if right.Panic? {
        return k, Panic, ts + [Sym('|')] + b;
      }
      Chain(s, es, ps, k2, k, ts + [Sym('|')], b);
      PipeIsPair(r.cmd, right.cmd, ts, b);
      r, ts := Parsed(Pipe(r.cmd, right.cmd)), ts + [Sym('|')] + b;
    }
  }

  lemma PipeIsExec(cmd: Cmd, ts: seq<Lexeme>)
    requires ExecOf(cmd, ts)
    ensures PipeOf(cmd, ts)
  {
    hide ExecOf;
  }

  lemma PipeIsPair(l: Cmd, r: Cmd, a: seq<Lexeme>, b: seq<Lexeme>)
    requires ExecOf(l, a) && PipeOf(r, b)
    ensures PipeOf(Pipe(l, r), a + [Sym('|')] + b)
  {
    hide ExecOf;
    var ts := a + [Sym('|')] + b;
    assert ts == a + [Sym('|')] + b && ExecOf(Pipe(l, r).left, a) && PipeOf(Pipe(l, r).right, b);
  }

  method Parseline(s: seq<char>, es: nat, ps: nat) returns (k: nat, r: Parse, ghost ts: seq<Lexeme>)
    requires Line(s, es) && ps <= es
    ensures ps <= k <= es
    ensures r.Parsed? ==> Consumed(s, es, ps, k, ts) && LineOf(r.cmd, ts)
    ensures OnlyLine(Lex(s, es, ps), r, ts)
    decreases es - ps, 3
  {
    hide Lex; hide Consumed; hide Line; hide Redirs; hide Simple; hide Block; hide ExecOf; hide PipeOf; hide BackOf;
    hide LineOf; hide Wrap; hide White; hide Word;
    hide OnlyRedirs; hide OnlyBlock; hide OnlyExec; hide OnlyPipe; hide OnlyBack; hide OnlyLine; hide Plain; hide Depth;
    LineBound(s, es);
    ghost var x := Lex(s, es, ps);
    var yes, tok, q, eq, right;
    ghost var b;
    k, r, ts := Parsepipe(s, es, ps);
    ghost var r0, p, n := r, ts, 0;
    if r.Panic? {
      BackOnly(x, r, ts, 0, ts);
      LineOnly(x, r, ts, Panic, []);
      return;
    }
    NoBacks(r.cmd);
    BackIsPipe(r.cmd, ts);
    ghost var k0 := k;
    k, yes := Peek(s, es, k, "&");
    Chain(s, es, ps, k0, k, ts, []);
    while yes
      invariant ps <= k <= es && (yes <==> Starts(Lex(s, es, k), "&")) && (yes ==> k < es && s[k] in "&")
      invariant r.Parsed? && Consumed(s, es, ps, k, ts) && BackOf(r.cmd, ts)
      invariant 0 <= n && r.cmd == Backs(r0.cmd, n) && p <= ts && |ts| == |p| + n
      invariant forall i :: |p| <= i < |ts| ==> ts[i] == Sym('&')
      decreases es - k
    {
      ghost var k1 := k;
      k, tok, q, eq := Gettoken(s, es, k);
      Chain(s, es, ps, k1, k, ts, [Sym('&')]);
      BackIsBack(r.cmd, ts);
      r, ts, n := Parsed(Back(r.cmd)), ts + [Sym('&')], n + 1;
      ghost var k2 := k;
      k, yes := Peek(s, es, k, "&");
      Chain(s, es, ps, k2, k, ts, []);
    }
    LineIsBack(r.cmd, ts);
    Rest(s, es, ps, k, ts);
    BackOnly(x, r0, p, n, ts);
    ghost var k3 := k;
    k, yes := Peek(s, es, k, ";");
    Chain(s, es, ps, k3, k, ts, []);
    if !yes {
      LineOnly(x, r, ts, Panic, []);
    } else {
      ghost var k4 := k;
      k, tok, q, eq := Gettoken(s, es, k);
      Chain(s, es, ps, k4, k, ts, [Sym(';')]);
      ghost var k5 := k;
      assert x[|ts| + 1..] == x[|ts|..][1..] == Lex(s, es, k5);
      k, right, b := Parseline(s, es, k);
      LineOnly(x, r, ts, right, b);
      if right.Panic? {
        return k, Panic, ts + [Sym(';')] + b;
      }
      Chain(s, es, ps, k5, k, ts + [Sym(';')], b);
      LineIsPair(r.cmd, right.cmd, ts, b);
      r, ts := Parsed(List(r.cmd, right.cmd)), ts + [Sym(';')] + b;
    }
  }

  lemma NoBacks(c: Cmd)
    ensures Backs(c, 0) == c
  {
  }

  lemma BackIsPipe(cmd: Cmd, ts: seq<Lexeme>)
    requires PipeOf(cmd, ts)
    ensures BackOf(cmd, ts)
  {
    hide PipeOf;
  }

  lemma BackIsBack(cmd: Cmd, a: seq<Lexeme>)
    requires BackOf(cmd, a)
    ensures BackOf(Back(cmd), a + [Sym('&')])
  {
    hide PipeOf;
    assert a + [Sym('&')] == a + [Sym('&')] && BackOf(Back(cmd).cmd, a);
  }

  lemma LineIsBack(cmd: Cmd, ts: seq<Lexeme>)
    requires BackOf(cmd, ts)
    ensures LineOf(cmd, ts)
  {
    hide BackOf;
  }

  lemma LineIsPair(l: Cmd, r: Cmd, a: seq<Lexeme>, b: seq<Lexeme>)
    requires BackOf(l, a) && LineOf(r, b)
    ensures LineOf(List(l, r), a + [Sym(';')] + b)
  {
    hide BackOf;
    assert BackOf(List(l, r).left, a) && LineOf(List(l, r).right, b);
  }

  // ----- nulterminate -----

  /** The tokens a command keeps, in the order nulterminate visits them. */
  function Toks(cmd: Cmd): seq<Tok> {
    match cmd
    case Exec(argv) => argv
    case Redir(c, file, _, _) => Toks(c) + [file]
    case Pipe(l, r) => Toks(l) + Toks(r)
    case List(l, r) => Toks(l) + Toks(r)
    case Back(c) => Toks(c)
  }

  /** s with a NUL at the end of each token. */
  function Nulled(s: seq<char>, ts: seq<Tok>): (r: seq<char>)
    requires forall t :: t in ts ==> t.eq < |s|
    ensures |r| == |s| && (forall t :: t in ts ==> r[t.eq] == NUL)
    ensures forall p :: 0 <= p < |s| ==> r[p] == s[p] || exists t :: t in ts && t.eq == p
  {
    if ts == [] then s else
      var last := ts[|ts| - 1];
      assert ts == ts[..|ts| - 1] + [last];
      Nulled(s, ts[..|ts| - 1])[last.eq := NUL]
  }

  lemma {:induction false} NulledJoin(s: seq<char>, a: seq<Tok>, b: seq<Tok>)
    requires forall t :: t in a + b ==> t.eq < |s|
    ensures (forall t :: t in a ==> t.eq < |s|) && (forall t :: t in b ==> t.eq < |s|)
    ensures Nulled(s, a + b) == Nulled(Nulled(s, a), b)
    decreases |b|
  {
    assert forall t :: t in a ==> t in a + b;
    assert forall t :: t in b ==> t in a + b;
    if b == [] {
      assert a + b == a;
    } else {
      var front := b[..|b| - 1];
      assert (a + b)[..|a + b| - 1] == a + front;
      NulledJoin(s, a, front);
    }
  }

  /** Overwrites the end of every token, recursively. */
  method Nulterminate(buf: array<char>, cmd: Cmd)
    requires forall t :: t in Toks(cmd) ==> t.eq < buf.Length
    modifies buf
    ensures buf[..] == Nulled(old(buf[..]), Toks(cmd))
    decreases cmd
  {
    match cmd
    case Exec(argv) =>
      var i := 0;
      while i < |argv|
        invariant 0 <= i <= |argv| && buf[..] == Nulled(old(buf[..]), argv[..i])
      {
        NulledOne(old(buf[..]), argv, i);
        buf[argv[i].eq] := NUL;
        i := i + 1;
      }
      assert argv[..i] == argv;
    case Redir(c, file, _, _) =>
      Nulterminate(buf, c);
      NulledLast(old(buf[..]), Toks(c), file);
      buf[file.eq] := NUL;
    case Pipe(l, r) =>
      NulledJoin(buf[..], Toks(l), Toks(r));
      Nulterminate(buf, l);
      Nulterminate(buf, r);
    case List(l, r) =>
      NulledJoin(buf[..], Toks(l), Toks(r));
      Nulterminate(buf, l);
      Nulterminate(buf, r);
    case Back(c) =>
      Nulterminate(buf, c);
  }

  lemma NulledOne(s: seq<char>, ts: seq<Tok>, i: nat)
    requires (forall t :: t in ts ==> t.eq < |s|) && i < |ts|
    ensures Nulled(s, ts[..i + 1]) == Nulled(s, ts[..i])[ts[i].eq := NUL]
  {
    assert ts[..i + 1][..i] == ts[..i];
  }

  lemma NulledLast(s: seq<char>, ts: seq<Tok>, t: Tok)
    requires forall x :: x in ts + [t] ==> x.eq < |s|
    ensures (forall x :: x in ts ==> x.eq < |s|) && t.eq < |s| && Nulled(s, ts + [t]) == Nulled(s, ts)[t.eq := NUL]
  {
    assert t in ts + [t];
    assert forall x :: x in ts ==> x in ts + [t];
    assert (ts + [t])[..|ts|] == ts;
  }

  /** The C string at q. */
  function CString(s: seq<char>, q: nat): seq<char>
    requires q <= |s|
    decreases |s| - q
  {
    if q == |s| || s[q] == NUL then [] else [s[q]] + CString(s, q + 1)
  }

  lemma {:induction false} CStringIs(s: seq<char>, q: nat, eq: nat)
    requires q <= eq < |s| && s[eq] == NUL && forall k :: q <= k < eq ==> s[k] != NUL
    ensures CString(s, q) == s[q..eq]
    decreases eq - q
  {
    if q < eq { CStringIs(s, q + 1, eq); }
  }

  /** A maximal word of the line. */
  ghost predicate IsWord(s: seq<char>, es: nat, t: Tok)
    requires Line(s, es)
  {
    t.q < t.eq <= es && (forall k :: t.q <= k < t.eq ==> Word(s[k])) && !Word(s[t.eq])
  }

  lemma {:induction false} LexWords(s: seq<char>, es: nat, i: nat)
    requires Line(s, es) && i <= es
    ensures forall x :: x in Lex(s, es, i) && x.W? ==> IsWord(s, es, x.t)
    decreases es - i
  {
    hide Lex; hide AfterWhite; hide White; hide Symbol;
    var q := AfterWhite(s, es, i);
    if q == es {
      LexEnd(s, es, i);
    } else if s[q] == '>' && s[q + 1] == '>' {
      LexPlus(s, es, i, q);
      LexWords(s, es, q + 2);
    } else if Symbol(s[q]) {
      LexSymbol(s, es, i, q);
      LexWords(s, es, q + 1);
    } else {
      LexWord(s, es, i, q);
      LexWords(s, es, RunEnd(s, es, q));
    }
  }

  /** No word contains the end of another, so writing the ends keeps every word and terminates it. */
  lemma WordsSurvive(s: seq<char>, es: nat, ts: seq<Tok>, t: Tok)
    requires Line(s, es) && t in ts && forall x :: x in ts ==> IsWord(s, es, x)
    ensures (forall x :: x in ts ==> x.eq < |s|) && t.q < t.eq < |s| && CString(Nulled(s, ts), t.q) == s[t.q..t.eq]
  {
    var r := Nulled(s, ts);
    forall k | t.q <= k < t.eq ensures r[k] == s[k] && r[k] != NUL {
      assert Word(s[k]);
      assert forall x :: x in ts ==> x.eq != k;
    }
    CStringIs(r, t.q, t.eq);
    assert r[t.q..t.eq] == s[t.q..t.eq];
  }

  // ----- parsecmd -----

  /** The tokens in the tree of a sentence are its words, all of them. */
  ghost predicate FromWords(cmd: Cmd, ts: seq<Lexeme>) {
    forall t :: t in Toks(cmd) <==> W(t) in ts
  }

  lemma {:induction false} WrapToks(cmd: Cmd, rs: seq<Redirection>)
    ensures forall t :: t in Toks(Wrap(cmd, rs)) <==> t in Toks(cmd) || exists i :: 0 <= i < |rs| && rs[i].file == t
    decreases |rs|
  {
    if rs != [] {
      WrapToks(cmd, rs[..|rs| - 1]);
      assert forall i :: 0 <= i < |rs| - 1 ==> rs[..|rs| - 1][i] == rs[i];
      forall t | t in Toks(cmd) || exists i :: 0 <= i < |rs| && rs[i].file == t ensures t in Toks(Wrap(cmd, rs)) {
        if t !in Toks(cmd) {
          var i :| 0 <= i < |rs| && rs[i].file == t;
          assert i < |rs| - 1 ==> rs[..|rs| - 1][i].file == t;
        }
      }
    }
  }

  /** The words of redirections are their files. */
  lemma RedirsWords(rs: seq<Redirection>, ts: seq<Lexeme>, t: Tok)
    requires Redirs(rs, ts)
    ensures W(t) in ts <==> HasFile(rs, t)
  {
    if HasFile(rs, t) {
      var i :| 0 <= i < |rs| && rs[i].file == t;
      assert ts[2 * i + 1] == W(rs[i].file);
    }
    if W(t) in ts {
      var k :| 0 <= k < |ts| && ts[k] == W(t);
      var i := k / 2;
      assert ts[2 * i].Sym? && ts[2 * i + 1] == W(rs[i].file);
      assert rs[i].file == t;
    }
  }

  ghost predicate HasFile(rs: seq<Redirection>, t: Tok) {
    exists i :: 0 <= i < |rs| && rs[i].file == t
  }

  lemma HasFileJoin(a: seq<Redirection>, b: seq<Redirection>, t: Tok)
    ensures HasFile(a + b, t) <==> HasFile(a, t) || HasFile(b, t)
  {
    if i :| 0 <= i < |a + b| && (a + b)[i].file == t {
      assert if i < |a| then a[i].file == t else b[i - |a|].file == t;
    }
    if i :| 0 <= i < |a| && a[i].file == t { assert (a + b)[i].file == t; }
    if i :| 0 <= i < |b| && b[i].file == t { assert (a + b)[|a| + i].file == t; }
  }

  /** A word of two phrases with something between them is a word of one of them, or what is between. */
  lemma InPhrases(a: seq<Lexeme>, x: Lexeme, b: seq<Lexeme>, y: Lexeme)
    ensures y in a + [x] + b <==> y in a || y == x || y in b
  {
  }

  lemma {:induction false} SimpleFrom(argv: seq<Tok>, rs: seq<Redirection>, ts: seq<Lexeme>, t: Tok)
    requires Simple(argv, rs, ts)
    ensures W(t) in ts <==> t in argv || HasFile(rs, t)
    decreases |argv|
  {
    hide Redirs; hide HasFile;
    if argv == [] {
      RedirsWords(rs, ts, t);
    } else {
      var front, last := argv[..|argv| - 1], argv[|argv| - 1];
      var r1, r2, t1, t2 :| rs == r1 + r2 && ts == t1 + [W(last)] + t2 && Simple(front, r1, t1) && Redirs(r2, t2);
      SimpleFrom(front, r1, t1, t);
      RedirsWords(r2, t2, t);
      HasFileJoin(r1, r2, t);
      InPhrases(t1, W(last), t2, W(t));
      assert argv == front + [last];
    }
  }

  lemma {:induction false} BlockFrom(cmd: Cmd, ts: seq<Lexeme>)
    requires Block(cmd, ts)
    ensures FromWords(cmd, ts)
    decreases |ts|, 0
  {
    hide Redirs; hide Wrap; hide Toks; hide LineOf;
    var c: Cmd, rs: seq<Redirection>, a: seq<Lexeme>, b: seq<Lexeme> :| cmd == Wrap(c, rs) && ts == [Sym('(')] + a + [Sym(')')] + b && LineOf(c, a) && Redirs(rs, b);
    LineFrom(c, a);
    WrapToks(c, rs);
    forall t ensures t in Toks(cmd) <==> W(t) in ts {
      RedirsWords(rs, b, t);
      InPhrases([Sym('(')] + a, Sym(')'), b, W(t));
      InPhrases([], Sym('('), a, W(t));
      assert [] + [Sym('(')] + a == [Sym('(')] + a;
    }
  }

  lemma {:induction false} ExecFrom(cmd: Cmd, ts: seq<Lexeme>)
    requires ExecOf(cmd, ts)
    ensures FromWords(cmd, ts)
    decreases |ts|, 1
  {
    hide Block; hide Simple; hide Wrap;
    if Block(cmd, ts) {
      BlockFrom(cmd, ts);
    } else {
      var argv: seq<Tok>, rs: seq<Redirection> :| cmd == Wrap(Exec(argv), rs) && |argv| < MAXARGS && Simple(argv, rs, ts);
      WrapToks(Exec(argv), rs);
      forall t ensures t in Toks(cmd) <==> W(t) in ts {
        SimpleFrom(argv, rs, ts, t);
      }
    }
  }

  lemma {:induction false} PipeFrom(cmd: Cmd, ts: seq<Lexeme>)
    requires PipeOf(cmd, ts)
    ensures FromWords(cmd, ts)
    decreases |ts|, 2
  {
    hide ExecOf;
    if ExecOf(cmd, ts) {
      ExecFrom(cmd, ts);
    } else {
      var a, b :| ts == a + [Sym('|')] + b && ExecOf(cmd.left, a) && PipeOf(cmd.right, b);
      ExecFrom(cmd.left, a);
      PipeFrom(cmd.right, b);
      forall t ensures t in Toks(cmd) <==> W(t) in ts { InPhrases(a, Sym('|'), b, W(t)); }
    }
  }

  lemma {:induction false} BackFrom(cmd: Cmd, ts: seq<Lexeme>)
    requires BackOf(cmd, ts)
    ensures FromWords(cmd, ts)
    decreases |ts|, 3
  {
    hide PipeOf;
    if PipeOf(cmd, ts) {
      PipeFrom(cmd, ts);
    } else {
      var a :| ts == a + [Sym('&')] && BackOf(cmd.cmd, a);
      BackFrom(cmd.cmd, a);
      forall t ensures t in Toks(cmd) <==> W(t) in ts { InPhrases(a, Sym('&'), [], W(t)); }
    }
  }

  lemma {:induction false} LineFrom(cmd: Cmd, ts: seq<Lexeme>)
    requires LineOf(cmd, ts)
    ensures FromWords(cmd, ts)
    decreases |ts|, 4
  {
    hide BackOf;
    if BackOf(cmd, ts) {
      BackFrom(cmd, ts);
    } else {
      var a, b :| ts == a + [Sym(';')] + b && BackOf(cmd.left, a) && LineOf(cmd.right, b);
      BackFrom(cmd.left, a);
      LineFrom(cmd.right, b);
      forall t ensures t in Toks(cmd) <==> W(t) in ts { InPhrases(a, Sym(';'), b, W(t)); }
    }
  }

  method Strlen(buf: array<char>) returns (es: nat)
    requires NUL in buf[..]
    ensures Line(buf[..], es)
  {
    es := 0;
    while buf[es] != NUL
      invariant es < buf.Length && forall i :: 0 <= i < es ==> buf[i] != NUL
      decreases buf.Length - es
    {
      if es + 1 == buf.Length {
        assert forall i :: 0 <= i < buf.Length ==> buf[..][i] != NUL;
      }
      es := es + 1;
    }
  }

  /**
   Parses the line in buf. It succeeds exactly when the grammar has a tree for
   the line, which is then unique and the one returned; the C string now at each
   word of the line is that word, and nothing but the ends of words has changed.
   Otherwise the shell panics and the line is untouched.
   */
  method Parsecmd(buf: array<char>) returns (r: Parse, ghost es: nat)
    requires NUL in buf[..]
    modifies buf
    ensures Line(old(buf[..]), es)
    ensures r.Panic? ==> buf[..] == old(buf[..])
    ensures r.Parsed? <==> exists c :: LineOf(c, Lex(old(buf[..]), es, 0))
    ensures forall c :: LineOf(c, Lex(old(buf[..]), es, 0)) ==> r == Parsed(c)
    ensures r.Parsed? ==> forall t :: W(t) in Lex(old(buf[..]), es, 0) ==>
              IsWord(old(buf[..]), es, t) && CString(buf[..], t.q) == old(buf[..])[t.q..t.eq]
    ensures r.Parsed? ==> forall p :: 0 <= p < buf.Length ==>
              buf[p] == old(buf[p]) || exists t :: W(t) in Lex(old(buf[..]), es, 0) && t.eq == p
    ensures r.Parsed? ==> forall t :: t in Toks(r.cmd) <==> W(t) in Lex(old(buf[..]), es, 0)
  {
    hide Lex; hide LineOf; hide Consumed; hide Nulled; hide Word; hide White; hide CString; hide Toks; hide OnlyLine;
    var end := Strlen(buf);
    es := end;
    var s := buf[..];
    var k, any;
    ghost var ts;
    k, r, ts := Parseline(s, end, 0);
    WholeLine(s, end, r, ts);
    if r.Panic? {
      return;
    }
    ghost var k0 := k;
    k, any := Peek(s, end, k, "");
    Chain(s, end, 0, k0, k, ts, []);
    Rest(s, end, 0, k, ts);
    if k != end {
      LexHead(s, end, k);
      return Panic, end;
    }
    LexEnd(s, end, k);
    assert ts == Lex(s, end, 0);
    LineFrom(r.cmd, ts);
    LexWords(s, end, 0);
    forall t | t in Toks(r.cmd) ensures IsWord(s, end, t) {
      assert W(t) in ts;
    }
    Nulterminate(buf, r.cmd);
    forall t | W(t) in ts ensures CString(buf[..], t.q) == s[t.q..t.eq] {
      WordsSurvive(s, end, Toks(r.cmd), t);
    }
    OnlyEnds(s, buf[..], Toks(r.cmd), ts);
  }

  lemma OnlyEnds(s: seq<char>, s': seq<char>, toks: seq<Tok>, ts: seq<Lexeme>)
    requires (forall t :: t in toks ==> t.eq < |s|) && s' == Nulled(s, toks) && forall t :: t in toks <==> W(t) in ts
    ensures |s'| == |s| && forall p :: 0 <= p < |s| ==> s'[p] == s[p] || exists t :: W(t) in ts && t.eq == p
  {
  }

  /** A tree of the whole line is the one parsed, and then nothing is left. */
  lemma WholeLine(s: seq<char>, es: nat, r: Parse, ts: seq<Lexeme>)
    requires Line(s, es) && OnlyLine(Lex(s, es, 0), r, ts)
    ensures forall c :: LineOf(c, Lex(s, es, 0)) ==> r == Parsed(c) && ts == Lex(s, es, 0)
  {
    hide Lex; hide LineOf;
    var x := Lex(s, es, 0);
    assert x <= x && x[|x|..] == [];
  }
}
