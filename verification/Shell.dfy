/** The shell's parser over a character buffer (sh.c): gettoken, peek, the parse methods with their
    moving cursor, and nulterminate, against the grammar of ShellGrammar. */
module Shell {
  import opened ShellGrammar
  import opened ShellSpelling
  import opened ShellLex

  /** peek's symbols as the grammar names them: ">" also begins ">>". */
  function Plus(toks: string): string {
    if '>' in toks then toks + "+" else toks
  }

  // ---------------------------------------------------------------- gettoken and peek

  /** The span [q, eq) is a word of s. */
  predicate IsWord(s: string, q: nat, eq: nat) {
    q < eq <= |s| && (forall i :: q <= i < eq ==> Plain(s[i])) && (eq < |s| ==> !Plain(s[eq]))
  }

  /** Moves past white space. */
  method SkipWhite(s: string, p: nat) returns (q: nat)
    requires p <= |s|
    ensures p <= q <= |s| && q == SkipFrom(s, p) && Lex(s, q) == Lex(s, p)
  {
    hide White, Lex;
    q := p;
    while q < |s| && White(s[q])
      invariant p <= q <= |s| && SkipFrom(s, q) == SkipFrom(s, p)
      invariant forall i :: p <= i < q ==> White(s[i])
    {
      q := q + 1;
    }
    LexSkip(s, p, q);
  }

  /** The loop of gettoken over the characters of a word. */
  method ScanWord(s: string, q: nat) returns (t: nat)
    requires q <= |s|
    ensures t == WordEnd(s, q)
  {
    hide White, Symbol;
    t := q;
    while t < |s| && !White(s[t]) && !Symbol(s[t])
      invariant q <= t <= |s| && WordEnd(s, q) == WordEnd(s, t)
    {
      t := t + 1;
    }
  }

  /** The switch of gettoken, at a character that is not white space. */
  method ScanToken(s: string, q: nat) returns (ret: char, t: nat)
    requires q < |s| && !White(s[q]) && s[q] != '\0'
    ensures t == TokAt(s, q).1
    ensures match TokAt(s, q).0
            case Word(w) => ret == 'a' && IsWord(s, q, t) && w == s[q..t]
            case Sym(c) => ret == c && c != 'a' && c != '\0'
  {
    ret, t := s[q], q;
    if ret == '>' {
      t := t + 1;
      if t < |s| && s[t] == '>' {
        ret := '+';
        t := t + 1;
      }
    } else if Symbol(ret) {
      t := t + 1;
    } else {
      ret := 'a';
      t := ScanWord(s, q);
    }
  }

  /** gettoken: the token's code ('a' for a word, NUL at the end), its span and the new cursor. */
  method Gettoken(s: string, ps: nat) returns (ret: char, q: nat, eq: nat, ps': nat)
    requires ps <= |s| && forall i :: 0 <= i < |s| ==> s[i] != '\0'
    ensures ps <= q <= eq <= ps' <= |s|
    ensures Lex(s, ps) == [] ==> ret == '\0' && Lex(s, ps') == []
    ensures Lex(s, ps) != [] ==> ps < ps' && Lex(s, ps) == [Lex(s, ps)[0]] + Lex(s, ps')
    ensures Lex(s, ps) != [] ==> match Lex(s, ps)[0]
              case Word(w) => ret == 'a' && IsWord(s, q, eq) && w == s[q..eq]
              case Sym(c) => ret == c && c != 'a' && c != '\0'
  {
    hide White, Symbol, TokAt, IsWord;
    q := SkipWhite(s, ps);
    if q == |s| {
      return '\0', q, q, q;
    }
    ret, eq := ScanToken(s, q);
    ps' := SkipWhite(s, eq);
  }

  /** peek: skips white space and tests the next character. */
  method Peek(s: string, ps: nat, toks: string) returns (r: bool, ps': nat)
    requires ps <= |s| && forall c :: c in toks ==> Symbol(c)
    ensures ps <= ps' <= |s| && Lex(s, ps') == Lex(s, ps)
    ensures r <==> At(Lex(s, ps), Plus(toks))
    ensures Lex(s, ps) == [] <==> ps' == |s|
  {
    ps' := SkipWhite(s, ps);
    r := ps' < |s| && s[ps'] in toks;
    if ps' < |s| {
      assert Lex(s, ps)[0] == TokAt(s, ps').0;
    }
  }

  // ---------------------------------------------------------------- commands in the buffer

  /** A command whose words are spans of the buffer. */
  datatype Cmd = ExecCmd(argv: seq<(nat, nat)>) | RedirCmd(cmd: Cmd, q: nat, eq: nat, fd: int)
               | PipeCmd(left: Cmd, right: Cmd) | ListCmd(left: Cmd, right: Cmd) | BackCmd(cmd: Cmd)

  ghost predicate Fits(c: Cmd, s: string) {
    match c
    case ExecCmd(argv) => forall i :: 0 <= i < |argv| ==> IsWord(s, argv[i].0, argv[i].1)
    case RedirCmd(d, q, eq, _) => Fits(d, s) && IsWord(s, q, eq)
    case PipeCmd(l, r) => Fits(l, s) && Fits(r, s)
    case ListCmd(l, r) => Fits(l, s) && Fits(r, s)
    case BackCmd(d) => Fits(d, s)
  }

  ghost function Text(c: Cmd, s: string): Tree
    requires Fits(c, s)
  {
    match c
    case ExecCmd(argv) => Exec(seq(|argv|, i requires 0 <= i < |argv| => s[argv[i].0..argv[i].1]))
    case RedirCmd(d, q, eq, fd) => Redir(Text(d, s), s[q..eq], fd)
    case PipeCmd(l, r) => Pipe(Text(l, s), Text(r, s))
    case ListCmd(l, r) => List(Text(l, s), Text(r, s))
    case BackCmd(d) => Back(Text(d, s))
  }

  /** A redirection read: its file's span and its descriptor. */
  datatype Rd = Rd(q: nat, eq: nat, fd: int)

  ghost predicate RdsFit(rs: seq<Rd>, s: string) {
    forall i :: 0 <= i < |rs| ==> IsWord(s, rs[i].q, rs[i].eq)
  }

  ghost function RdTexts(rs: seq<Rd>, s: string): seq<(string, int)>
    requires RdsFit(rs, s)
  {
    seq(|rs|, i requires 0 <= i < |rs| => (s[rs[i].q..rs[i].eq], rs[i].fd))
  }

  function WrapCmd(c: Cmd, rs: seq<Rd>): Cmd
    decreases |rs|
  {
    if rs == [] then c else WrapCmd(RedirCmd(c, rs[0].q, rs[0].eq, rs[0].fd), rs[1..])
  }

  lemma {:induction false} WrapText(c: Cmd, rs: seq<Rd>, s: string)
    requires Fits(c, s) && RdsFit(rs, s)
    ensures Fits(WrapCmd(c, rs), s) && Text(WrapCmd(c, rs), s) == Wrap(Text(c, s), RdTexts(rs, s))
    decreases |rs|
  {
    if rs != [] {
      WrapText(RedirCmd(c, rs[0].q, rs[0].eq, rs[0].fd), rs[1..], s);
      assert RdTexts(rs, s)[1..] == RdTexts(rs[1..], s);
    }
  }

  /** What a parse method found, against what the grammar says of the tokens from its cursor on. */
  ghost predicate Agrees(p: Parse, ok: bool, c: Cmd, s: string, ps: nat, ps': nat) {
    && ps <= ps' <= |s|
    && (ok <==> p.Ok?)
    && (ok ==> Fits(c, s) && Text(c, s) == p.t && Lex(s, ps') == p.rest)
  }

  // ---------------------------------------------------------------- the parse methods

  ghost predicate Clean(s: string) {
    forall i :: 0 <= i < |s| ==> s[i] != '\0'
  }

  function Before(acc: seq<(string, int)>, r: Redirs): Redirs {
    match r
    case NoFile => NoFile
    case Redirs(rs, rest) => Redirs(acc + rs, rest)
  }

  ghost predicate RedirsAgree(r: Redirs, ok: bool, rs: seq<Rd>, s: string, ps: nat, ps': nat) {
    && ps <= ps' <= |s|
    && (ok <==> r.Redirs?)
    && (ok ==> RdsFit(rs, s) && RdTexts(rs, s) == r.rs && Lex(s, ps') == r.rest)
  }

  /** One more redirection. */
  lemma RedirsStep(ts: seq<Tok>, rest: seq<Tok>, acc: seq<(string, int)>)
    requires At(ts, "<>+")
    requires |ts| >= 2 && ts[1].Word? ==> ts == [ts[0], ts[1]] + rest
    ensures |ts| >= 2 && ts[1].Word? ==>
              Before(acc, ParseRedirs(ts)) == Before(acc + [(ts[1].w, FdOf(ts[0].c))], ParseRedirs(rest))
    ensures !(|ts| >= 2 && ts[1].Word?) ==> ParseRedirs(ts) == NoFile
  {
    if |ts| >= 2 && ts[1].Word? {
      assert ts[2..] == rest;
      var x := (ts[1].w, FdOf(ts[0].c));
      if ParseRedirs(rest).Redirs? {
        assert acc + ([x] + ParseRedirs(rest).rs) == (acc + [x]) + ParseRedirs(rest).rs;
      }
    }
  }

  /** The loop of parseredirs; not ok is the panic for a missing file. */
  method Parseredirs(s: string, ps: nat) returns (ok: bool, rs: seq<Rd>, ps': nat)
    requires ps <= |s| && Clean(s)
    ensures RedirsAgree(ParseRedirs(Lex(s, ps)), ok, rs, s, ps, ps')
  {
    hide Lex, IsWord, ParseRedirs, White, Symbol;
    RedirSymbols();
    ghost var whole := ParseRedirs(Lex(s, ps));
    rs, ps' := [], ps;
    var more;
    more, ps' := Peek(s, ps', "<>");
    BeforeNone(whole);
    while more
      invariant ps <= ps' <= |s| && RdsFit(rs, s)
      invariant more <==> At(Lex(s, ps'), "<>+")
      invariant Before(RdTexts(rs, s), ParseRedirs(Lex(s, ps'))) == whole
      decreases |s| - ps', more
    {
      ghost var ts := Lex(s, ps');
      var tok, q0, eq0, p1 := Gettoken(s, ps');
      var kind, q, eq, p2 := Gettoken(s, p1);
      if kind != 'a' {
        RedirsStep(ts, ts, RdTexts(rs, s));
        return false, rs, ps';
      }
      assert Lex(s, p1) != [] && Lex(s, p1)[0].Word?;
      assert ts == [ts[0], ts[1]] + Lex(s, p2);
      RedirsStep(ts, Lex(s, p2), RdTexts(rs, s));
      ghost var was := RdTexts(rs, s);
      rs := rs + [Rd(q, eq, if tok == '<' then 0 else 1)];
      assert RdTexts(rs, s) == was + [(ts[1].w, FdOf(ts[0].c))];
      more, ps' := Peek(s, p2, "<>");
    }
    RedirsNone(Lex(s, ps'), RdTexts(rs, s));
    ok := true;
  }

  lemma RedirSymbols()
    ensures forall c :: c in "<>" ==> Symbol(c)
    ensures Plus("<>") == "<>+"
  {}

  lemma BeforeNone(r: Redirs)
    ensures Before([], r) == r
  {
    if r.Redirs? {
      assert [] + r.rs == r.rs;
    }
  }

  lemma RedirsNone(ts: seq<Tok>, acc: seq<(string, int)>)
    requires !At(ts, "<>+")
    ensures Before(acc, ParseRedirs(ts)) == Redirs(acc, ts)
  {
    assert acc + [] == acc;
  }

  ghost predicate ArgsFit(args: seq<(nat, nat)>, s: string) {
    forall i :: 0 <= i < |args| ==> IsWord(s, args[i].0, args[i].1)
  }

  ghost function ArgTexts(args: seq<(nat, nat)>, s: string): (r: seq<string>)
    requires ArgsFit(args, s)
    ensures |r| == |args|
  {
    seq(|args|, i requires 0 <= i < |args| => s[args[i].0..args[i].1])
  }

  lemma ExecSymbols()
    ensures forall c :: c in "|)&;" ==> Symbol(c)
    ensures Plus("|)&;") == "|)&;" && Plus("(") == "(" && Plus(")") == ")" && Plus("|") == "|"
    ensures Plus("&") == "&" && Plus(";") == ";"
    ensures Symbol('(') && Symbol(')') && Symbol('|') && Symbol('&') && Symbol(';')
  {}

  /** What parseexec makes of the arguments and redirections it has read. */
  lemma ExecDone(s: string, ts: seq<Tok>, args: seq<(nat, nat)>, rs: seq<Rd>)
    requires ArgsFit(args, s) && RdsFit(rs, s) && (At(ts, "|)&;") || ts == [])
    ensures var c := WrapCmd(ExecCmd(args), rs);
            Fits(c, s) && ParseArgs(ts, ArgTexts(args, s), RdTexts(rs, s)) == Ok(Text(c, s), ts)
  {
    WrapText(ExecCmd(args), rs, s);
    assert Text(ExecCmd(args), s) == Exec(ArgTexts(args, s));
  }

  /** One argument and the redirections after it. */
  lemma ExecStep(s: string, ts: seq<Tok>, tail: seq<Tok>, args: seq<(nat, nat)>, rs: seq<Rd>, q: nat, eq: nat)
    requires ArgsFit(args, s) && RdsFit(rs, s) && IsWord(s, q, eq) && |args| + 1 < MAXARGS
    requires ts == [Word(s[q..eq])] + tail
    ensures ArgsFit(args + [(q, eq)], s)
    ensures ParseRedirs(tail).NoFile? ==> ParseArgs(ts, ArgTexts(args, s), RdTexts(rs, s)) == Panic
    ensures forall more: seq<Rd> {:trigger RdTexts(more, s)} ::
              RdsFit(more, s) && ParseRedirs(tail).Redirs? && ParseRedirs(tail).rs == RdTexts(more, s) ==>
              RdsFit(rs + more, s) &&
              ParseArgs(ts, ArgTexts(args, s), RdTexts(rs, s)) ==
                  ParseArgs(ParseRedirs(tail).rest, ArgTexts(args + [(q, eq)], s), RdTexts(rs + more, s))
  {
    assert ts[1..] == tail;
    assert ArgTexts(args + [(q, eq)], s) == ArgTexts(args, s) + [s[q..eq]];
    forall more: seq<Rd> {:trigger RdTexts(more, s)}
        | RdsFit(more, s) && ParseRedirs(tail).Redirs? && ParseRedirs(tail).rs == RdTexts(more, s)
      ensures RdsFit(rs + more, s)
      ensures ParseArgs(ts, ArgTexts(args, s), RdTexts(rs, s)) ==
                ParseArgs(ParseRedirs(tail).rest, ArgTexts(args + [(q, eq)], s), RdTexts(rs + more, s))
    {
      assert RdTexts(rs + more, s) == RdTexts(rs, s) + RdTexts(more, s);
    }
  }

  /** The loop of parseexec. */
  method ParseArguments(s: string, ps: nat, rs0: seq<Rd>) returns (ok: bool, c: Cmd, ps': nat)
    requires ps <= |s| && Clean(s) && RdsFit(rs0, s)
    ensures Agrees(ParseArgs(Lex(s, ps), [], RdTexts(rs0, s)), ok, c, s, ps, ps')
  {
    hide Lex, IsWord, ParseRedirs, ParseArgs, White, Symbol, Fits, Text, WrapCmd, RdTexts, ArgTexts;
    ExecSymbols();
    ghost var whole := ParseArgs(Lex(s, ps), [], RdTexts(rs0, s));
    var args, rs := [], rs0;
    NoArgs(s);
    var stop;
    stop, ps' := Peek(s, ps, "|)&;");
    while !stop
      invariant ps <= ps' <= |s| && ArgsFit(args, s) && RdsFit(rs, s) && |args| < MAXARGS
      invariant stop <==> At(Lex(s, ps'), "|)&;")
      invariant ParseArgs(Lex(s, ps'), ArgTexts(args, s), RdTexts(rs, s)) == whole
      decreases |s| - ps', !stop
    {
      ghost var ts := Lex(s, ps');
      var tok, q, eq, p1 := Gettoken(s, ps');
      if tok == '\0' {
        ps' := p1;
        break;
      }
      if tok != 'a' || |args| + 1 >= MAXARGS {
        ArgsPanic(ts, ArgTexts(args, s), RdTexts(rs, s));
        return false, ExecCmd([]), ps';
      }
      ExecStep(s, ts, Lex(s, p1), args, rs, q, eq);
      var ok1, more, p2 := Parseredirs(s, p1);
      if !ok1 {
        return false, ExecCmd([]), ps';
      }
      assert RdTexts(more, s) == ParseRedirs(Lex(s, p1)).rs;
      args, rs := args + [(q, eq)], rs + more;
      stop, ps' := Peek(s, p2, "|)&;");
    }
    ExecDone(s, Lex(s, ps'), args, rs);
    ok, c := true, WrapCmd(ExecCmd(args), rs);
  }

  lemma NoArgs(s: string)
    ensures ArgsFit([], s) && ArgTexts([], s) == []
  {}

  lemma ArgsPanic(ts: seq<Tok>, args: seq<string>, rs: seq<(string, int)>)
    requires ts != [] && !At(ts, "|)&;") && (!ts[0].Word? || |args| + 1 >= MAXARGS)
    ensures ParseArgs(ts, args, rs) == Panic
  {}

  /** parseexec */
  method Parseexec(s: string, ps: nat) returns (ok: bool, c: Cmd, ps': nat)
    requires ps <= |s| && Clean(s)
    ensures Agrees(ParseExec(Lex(s, ps)), ok, c, s, ps, ps')
    decreases |s| - ps, 1
  {
    hide Lex, IsWord, ParseRedirs, ParseArgs, ParseBlock, White, Symbol, Fits, Text, RdTexts;
    ExecSymbols();
    var open, p1 := Peek(s, ps, "(");
    if open {
      ok, c, ps' := Parseblock(s, p1);
      return;
    }
    var ok1, rs, p2 := Parseredirs(s, p1);
    if !ok1 {
      return false, ExecCmd([]), p1;
    }
    ok, c, ps' := ParseArguments(s, p2, rs);
  }

  /** parseblock, which parseexec calls only at "(". */
  method Parseblock(s: string, ps: nat) returns (ok: bool, c: Cmd, ps': nat)
    requires ps <= |s| && Clean(s) && At(Lex(s, ps), "(")
    ensures Agrees(ParseBlock(Lex(s, ps)), ok, c, s, ps, ps')
    decreases |s| - ps, 0
  {
    hide Lex, IsWord, ParseRedirs, ParseLine, White, Symbol, Fits, Text, RdTexts, WrapCmd, Wrap;
    ExecSymbols();
    var tok, q, eq, p1 := Gettoken(s, ps);
    assert Lex(s, ps)[1..] == Lex(s, p1);
    var ok1, c1, p2 := Parseline(s, p1);
    if !ok1 {
      return false, c1, p2;
    }
    var close, p3 := Peek(s, p2, ")");
    if !close {
      return false, c1, p3;
    }
    var tok2, q2, eq2, p4 := Gettoken(s, p3);
    assert Lex(s, p3)[1..] == Lex(s, p4);
    var ok2, rs, p5 := Parseredirs(s, p4);
    if !ok2 {
      return false, c1, p4;
    }
    WrapText(c1, rs, s);
    ok, c, ps' := true, WrapCmd(c1, rs), p5;
  }

  /** parsepipe */
  method Parsepipe(s: string, ps: nat) returns (ok: bool, c: Cmd, ps': nat)
    requires ps <= |s| && Clean(s)
    ensures Agrees(ParsePipe(Lex(s, ps)), ok, c, s, ps, ps')
    decreases |s| - ps, 2
  {
    hide Lex, IsWord, ParseExec, White, Symbol;
    ExecSymbols();
    ok, c, ps' := Parseexec(s, ps);
    if !ok {
      return;
    }
    var bar;
    bar, ps' := Peek(s, ps', "|");
    if bar {
      var tok, q, eq, p1 := Gettoken(s, ps');
      assert Lex(s, ps')[1..] == Lex(s, p1);
      var right;
      ok, right, ps' := Parsepipe(s, p1);
      c := PipeCmd(c, right);
    }
  }

  /** parseline */
  method Parseline(s: string, ps: nat) returns (ok: bool, c: Cmd, ps': nat)
    requires ps <= |s| && Clean(s)
    ensures Agrees(ParseLine(Lex(s, ps)), ok, c, s, ps, ps')
    decreases |s| - ps, 3
  {
    hide Lex, IsWord, ParsePipe, White, Symbol;
    ExecSymbols();
    ok, c, ps' := Parsepipe(s, ps);
    if !ok {
      return;
    }
    ghost var whole := ParseBacks(Text(c, s), Lex(s, ps'));
    var amp;
    amp, ps' := Peek(s, ps', "&");
    while amp
      invariant ps <= ps' <= |s| && Fits(c, s) && (amp <==> At(Lex(s, ps'), "&"))
      invariant ParseBacks(Text(c, s), Lex(s, ps')) == whole
      decreases |s| - ps', amp
    {
      var tok, q, eq, p1 := Gettoken(s, ps');
      assert Lex(s, ps')[1..] == Lex(s, p1);
      c := BackCmd(c);
      amp, ps' := Peek(s, p1, "&");
    }
    var semi;
    semi, ps' := Peek(s, ps', ";");
    if semi {
      var tok, q, eq, p1 := Gettoken(s, ps');
      assert Lex(s, ps')[1..] == Lex(s, p1);
      var right;
      ok, right, ps' := Parseline(s, p1);
      c := ListCmd(c, right);
    }
  }

  // ---------------------------------------------------------------- nulterminate

  /** Where nulterminate writes. */
  function Ends(c: Cmd): set<nat> {
    match c
    case ExecCmd(argv) => set i | 0 <= i < |argv| :: argv[i].1
    case RedirCmd(d, _, eq, _) => Ends(d) + {eq}
    case PipeCmd(l, r) => Ends(l) + Ends(r)
    case ListCmd(l, r) => Ends(l) + Ends(r)
    case BackCmd(d) => Ends(d)
  }

  /** buf is s, with NULs at `ends` and after its last character. */
  ghost predicate Ended(buf: seq<char>, s: string, ends: set<nat>) {
    && |buf| == |s| + 1
    && forall i :: 0 <= i <= |s| ==> buf[i] == if i in ends || i == |s| then '\0' else s[i]
  }

  lemma EndOne(buf: seq<char>, s: string, ends: set<nat>, k: nat)
    requires Ended(buf, s, ends) && k <= |s|
    ensures k < |buf| && Ended(buf[k := '\0'], s, ends + {k})
  {}

  /** The loop of nulterminate over a command's words. */
  method EndWords(argv: seq<(nat, nat)>, buf: array<char>, ghost s: string, ghost ends: set<nat>)
    requires Ended(buf[..], s, ends) && forall i :: 0 <= i < |argv| ==> IsWord(s, argv[i].0, argv[i].1)
    modifies buf
    ensures Ended(buf[..], s, ends + set i | 0 <= i < |argv| :: argv[i].1)
  {
    hide Ended;
    ghost var done: set<nat> := {};
    assert ends + done == ends;
    var i := 0;
    while i < |argv|
      invariant 0 <= i <= |argv| && done == set k | 0 <= k < i :: argv[k].1
      invariant Ended(buf[..], s, ends + done)
    {
      EndOne(buf[..], s, ends + done, argv[i].1);
      ghost var was := buf[..];
      buf[argv[i].1] := '\0';
      assert buf[..] == was[argv[i].1 := '\0'];
      assert ends + done + {argv[i].1} == ends + (done + {argv[i].1});
      done := done + {argv[i].1};
      i := i + 1;
    }
  }

  /** NUL-terminates the words of a command in the buffer. */
  method Nulterminate(c: Cmd, buf: array<char>, ghost s: string, ghost ends: set<nat>)
    requires Fits(c, s) && Ended(buf[..], s, ends)
    modifies buf
    ensures Ended(buf[..], s, ends + Ends(c))
    decreases c
  {
    hide Ended;
    match c
    case ExecCmd(argv) =>
      EndWords(argv, buf, s, ends);
    case RedirCmd(d, _, eq, _) =>
      Nulterminate(d, buf, s, ends);
      ghost var was := buf[..];
      EndOne(was, s, ends + Ends(d), eq);
      buf[eq] := '\0';
      assert buf[..] == was[eq := '\0'] && ends + Ends(d) + {eq} == ends + Ends(c);
    case PipeCmd(l, r) =>
      Nulterminate(l, buf, s, ends);
      Nulterminate(r, buf, s, ends + Ends(l));
      assert ends + Ends(l) + Ends(r) == ends + Ends(c);
    case ListCmd(l, r) =>
      Nulterminate(l, buf, s, ends);
      Nulterminate(r, buf, s, ends + Ends(l));
      assert ends + Ends(l) + Ends(r) == ends + Ends(c);
    case BackCmd(d) =>
      Nulterminate(d, buf, s, ends);
  }

  /** The C string at q: the characters up to the first NUL. */
  function CString(buf: seq<char>, q: nat): string
    requires q <= |buf|
    decreases |buf| - q
  {
    if q == |buf| || buf[q] == '\0' then "" else [buf[q]] + CString(buf, q + 1)
  }

  lemma {:induction false} CStringIs(buf: seq<char>, q: nat, eq: nat)
    requires q <= eq < |buf| && buf[eq] == '\0' && forall i :: q <= i < eq ==> buf[i] != '\0'
    ensures CString(buf, q) == buf[q..eq]
    decreases eq - q
  {
    if q < eq {
      CStringIs(buf, q + 1, eq);
    }
  }

  /** The words of a command, as the program run gets them: through its pointers. */
  ghost function Reads(c: Cmd, buf: seq<char>, s: string): Tree
    requires Fits(c, s) && |buf| == |s| + 1
  {
    match c
    case ExecCmd(argv) => Exec(seq(|argv|, i requires 0 <= i < |argv| => CString(buf, argv[i].0)))
    case RedirCmd(d, q, _, fd) => Redir(Reads(d, buf, s), CString(buf, q), fd)
    case PipeCmd(l, r) => Pipe(Reads(l, buf, s), Reads(r, buf, s))
    case ListCmd(l, r) => List(Reads(l, buf, s), Reads(r, buf, s))
    case BackCmd(d) => Back(Reads(d, buf, s))
  }

  /** Every position in `ends` is where some word ends. */
  ghost predicate WordEnds(ends: set<nat>, s: string) {
    forall e {:trigger e in ends} :: e in ends ==> e <= |s| && (e < |s| ==> !Plain(s[e]))
  }

  lemma {:induction false} EndsAreWordEnds(c: Cmd, s: string)
    requires Fits(c, s)
    ensures WordEnds(Ends(c), s)
    decreases c
  {
    match c
    case ExecCmd(argv) =>
    case RedirCmd(d, _, _, _) => EndsAreWordEnds(d, s);
    case PipeCmd(l, r) => EndsAreWordEnds(l, s); EndsAreWordEnds(r, s);
    case ListCmd(l, r) => EndsAreWordEnds(l, s); EndsAreWordEnds(r, s);
    case BackCmd(d) => EndsAreWordEnds(d, s);
  }

  /** A word whose end is marked reads as exactly itself: the NULs written for other words fall
      outside it. */
  lemma WordReads(buf: seq<char>, s: string, ends: set<nat>, q: nat, eq: nat)
    requires Ended(buf, s, ends) && WordEnds(ends, s) && Clean(s) && IsWord(s, q, eq) && eq in ends
    ensures CString(buf, q) == s[q..eq]
  {
    hide Plain;
    forall i | q <= i < eq
      ensures buf[i] == s[i] && buf[i] != '\0'
    {
      assert i !in ends;
    }
    CStringIs(buf, q, eq);
    assert buf[q..eq] == s[q..eq];
  }

  lemma {:induction false} AllWordsRead(c: Cmd, buf: seq<char>, s: string, ends: set<nat>)
    requires Fits(c, s) && Ended(buf, s, ends) && WordEnds(ends, s) && Clean(s) && Ends(c) <= ends
    ensures Reads(c, buf, s) == Text(c, s)
    decreases c
  {
    hide IsWord, CString, WordEnds, Clean, Ended;
    match c
    case ExecCmd(argv) =>
      forall i | 0 <= i < |argv|
        ensures |buf| == |s| + 1 && argv[i].0 < argv[i].1 <= |s| && CString(buf, argv[i].0) == s[argv[i].0..argv[i].1]
      {
        assert argv[i].1 in Ends(c);
        SpanIn(buf, s, ends, argv[i].0, argv[i].1);
        WordReads(buf, s, ends, argv[i].0, argv[i].1);
      }
    case RedirCmd(d, q, eq, _) =>
      AllWordsRead(d, buf, s, ends);
      SpanIn(buf, s, ends, q, eq);
      WordReads(buf, s, ends, q, eq);
    case PipeCmd(l, r) => AllWordsRead(l, buf, s, ends); AllWordsRead(r, buf, s, ends);
    case ListCmd(l, r) => AllWordsRead(l, buf, s, ends); AllWordsRead(r, buf, s, ends);
    case BackCmd(d) => AllWordsRead(d, buf, s, ends);
  }

  lemma SpanIn(buf: seq<char>, s: string, ends: set<nat>, q: nat, eq: nat)
    requires Ended(buf, s, ends) && IsWord(s, q, eq)
    ensures |buf| == |s| + 1 && q < eq <= |s|
  {}

  lemma Accepted(ts: seq<Tok>)
    ensures ParseCmd(ts).Ok? <==> exists t :: Spells(t, ts)
    ensures ParseCmd(ts).Ok? ==> ParseCmd(ts).rest == [] && Spells(ParseCmd(ts).t, ts)
  {
    hide Spells, ParseLine;
    if ParseCmd(ts).Ok? {
      ParsesWhatSpells(ParseCmd(ts).t, ts);
    }
    if t :| Spells(t, ts) {
      ParsesWhatSpells(t, ts);
    }
  }

  /** parsecmd: parses the string in the buffer, refuses leftovers, and NUL-terminates the words;
      what the command's pointers then read is the tree of the grammar. */
  method Parsecmd(buf: array<char>, ghost s: string) returns (ok: bool, c: Cmd)
    requires Clean(s) && Ended(buf[..], s, {})
    modifies buf
    ensures ok <==> ParseCmd(Lex(s, 0)).Ok?
    ensures ok <==> exists t :: Spells(t, Lex(s, 0))
    ensures ok ==> Fits(c, s) && buf.Length == |s| + 1 && Reads(c, buf[..], s) == ParseCmd(Lex(s, 0)).t
    ensures ok ==> Spells(Reads(c, buf[..], s), Lex(s, 0))
  {
    hide Lex, IsWord, ParseLine, White, Symbol, Fits, Text, CString, Ends, Spells;
    Accepted(Lex(s, 0));
    var text := buf[..buf.Length - 1];
    assert text == s;
    var ps;
    ok, c, ps := Parseline(text, 0);
    if !ok {
      return;
    }
    var any;
    any, ps := Peek(text, ps, "");
    if ps != |text| {
      return false, c;
    }
    Nulterminate(c, buf, s, {});
    EndsAreWordEnds(c, s);
    AllWordsRead(c, buf[..], s, {} + Ends(c));
  }

  // ---------------------------------------------------------------- printing as text

  /** A non-empty word without white space, symbols or NUL. */
  predicate CleanWord(w: string) {
    w != "" && forall i :: 0 <= i < |w| ==> Plain(w[i]) && w[i] != '\0'
  }

  predicate CleanTok(t: Tok) {
    match t
    case Word(w) => CleanWord(w)
    case Sym(c) => Symbol(c)
  }

  /** The tokens as text, a space after each. */
  function PrintText(ts: seq<Tok>): string {
    if ts == [] then "" else Spelling(ts[0]) + " " + PrintText(ts[1..])
  }

  /** A space before every token but the first, and at the end. */
  function Spaces(n: nat): (g: seq<string>)
    ensures |g| == n && forall i :: 0 <= i < n ==> g[i] == " "
  {
    seq(n, _ => " ")
  }

  lemma {:induction false} Printed(ts: seq<Tok>, first: string)
    ensures Render(ts, [first] + Spaces(|ts|)) == first + PrintText(ts)
    decreases |ts|
  {
    hide Spelling;
    if ts != [] {
      Printed(ts[1..], " ");
      assert ([first] + Spaces(|ts|))[1..] == [" "] + Spaces(|ts| - 1);
      var x := Spelling(ts[0]);
      assert first + x + (" " + PrintText(ts[1..])) == first + (x + " " + PrintText(ts[1..]));
    }
  }

  /** Lexing the text after any prefix gives the tokens back. */
  lemma LexBack(pre: string, ts: seq<Tok>)
    requires forall i :: 0 <= i < |ts| ==> CleanTok(ts[i])
    ensures Lex(pre + PrintText(ts), |pre|) == ts
  {
    hide GoodTok, CleanTok, Spaces, Gaps, Render, Lex, PrintText;
    forall i | 0 <= i < |ts|
      ensures GoodTok(ts[i])
    {
      CleanGood(ts[i]);
    }
    SpacesApart(ts);
    Printed(ts, "");
    LexSpaced(pre, ts, [""] + Spaces(|ts|));
    assert "" + PrintText(ts) == PrintText(ts);
  }

  lemma CleanGood(t: Tok)
    requires CleanTok(t)
    ensures GoodTok(t)
  {}

  lemma SpacesApart(ts: seq<Tok>)
    requires AllGood(ts)
    ensures Gaps(ts, [""] + Spaces(|ts|))
  {
    hide GoodTok, Symbol;
    NotBoth(' ');
  }

  /** A tree with clean words only. */
  predicate CleanTree(t: Tree) {
    match t
    case Exec(args) => forall i :: 0 <= i < |args| ==> CleanWord(args[i])
    case Redir(c, file, _) => CleanTree(c) && CleanWord(file)
    case Pipe(l, r) => CleanTree(l) && CleanTree(r)
    case List(l, r) => CleanTree(l) && CleanTree(r)
    case Back(c) => CleanTree(c)
  }

  ghost predicate AllClean(ts: seq<Tok>) {
    forall i :: 0 <= i < |ts| ==> CleanTok(ts[i])
  }

  lemma Joined(a: seq<Tok>, t: Tok, b: seq<Tok>)
    requires AllClean(a) && AllClean(b) && CleanTok(t)
    ensures AllClean(a + [t] + b) && AllClean(a + [t])
  {}

  lemma {:induction false} InnerClean(t: Tree)
    requires CleanTree(t) && (t.List? || t.Back? || t.Pipe?)
    ensures AllClean(Inner(t))
    decreases t, 0
  {
    ExecSymbols();
    match t
    case List(l, r) => BackClean(l); LineClean(r); Joined(PrintBack(l), Sym(';'), PrintLine(r));
    case Back(c) => BackClean(c); Joined(PrintBack(c), Sym('&'), []);
    case Pipe(l, r) => ExecClean(l); PipeClean(r); Joined(PrintExec(l), Sym('|'), PrintPipe(r));
  }

  lemma {:induction false} LineClean(t: Tree)
    requires CleanTree(t)
    ensures AllClean(PrintLine(t))
    decreases t, 4
  {
    if t.List? { InnerClean(t); } else { BackClean(t); }
  }

  lemma {:induction false} BackClean(t: Tree)
    requires CleanTree(t)
    ensures AllClean(PrintBack(t))
    decreases t, 3
  {
    if t.Back? { InnerClean(t); } else { PipeClean(t); }
  }

  lemma {:induction false} PipeClean(t: Tree)
    requires CleanTree(t)
    ensures AllClean(PrintPipe(t))
    decreases t, 2
  {
    if t.Pipe? { InnerClean(t); } else { ExecClean(t); }
  }

  lemma {:induction false} ExecClean(t: Tree)
    requires CleanTree(t)
    ensures AllClean(PrintExec(t))
    decreases t, 1
  {
    ExecSymbols();
    RedirSymbols();
    match t
    case Exec(args) =>
    case Redir(c, file, fd) => ExecClean(c);
    case _ => InnerClean(t);
  }

  /** The text that stands for a tree. */
  function Print(t: Tree): string {
    PrintText(PrintLine(t))
  }

  lemma {:induction false} TextClean(ts: seq<Tok>)
    requires AllClean(ts)
    ensures Clean(PrintText(ts))
    decreases |ts|
  {
    if ts != [] {
      TextClean(ts[1..]);
    }
  }

  /** The round trip: for every tree with at most 9 arguments a command and clean words, parsing
      its text gives it back, and after NUL-termination the command's pointers read it. */
  lemma TextRoundTrip(t: Tree)
    requires Sound(t) && CleanTree(t)
    ensures Clean(Print(t)) && ParseCmd(Lex(Print(t), 0)) == Ok(t, [])
  {
    LineClean(t);
    TextClean(PrintLine(t));
    LexBack("", PrintLine(t));
    assert "" + Print(t) == Print(t);
    RoundTrip(t);
  }

  /** The round trip through the buffer. */
  method ParsePrinted(t: Tree) returns (c: Cmd, buf: array<char>)
    requires Sound(t) && CleanTree(t)
    ensures Fits(c, Print(t)) && buf.Length == |Print(t)| + 1 && Reads(c, buf[..], Print(t)) == t
  {
    TextRoundTrip(t);
    var s := Print(t);
    buf := new char[|s| + 1](i requires 0 <= i <= |s| => if i < |s| then s[i] else '\0');
    var ok;
    ok, c := Parsecmd(buf, s);
  }
}
