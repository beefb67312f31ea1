/** The shell's grammar (sh.c): command trees, the recursive-descent parse over tokens, and the
    printing that the parse inverts. */
module ShellGrammar {

  const MAXARGS: int := 10

  /** A word, or a symbol; '+' stands for ">>". */
  datatype Tok = Word(w: string) | Sym(c: char)

  /** fd is 0 for input and 1 for output; ">" and ">>" make the same node. */
  datatype Tree = Exec(args: seq<string>) | Redir(cmd: Tree, file: string, fd: int)
                | Pipe(left: Tree, right: Tree) | List(left: Tree, right: Tree) | Back(cmd: Tree)

  datatype Parse = Ok(t: Tree, rest: seq<Tok>) | Panic

  /** Redirections parsed off the front. */
  datatype Redirs = Redirs(rs: seq<(string, int)>, rest: seq<Tok>) | NoFile

  /** peek */
  predicate At(ts: seq<Tok>, syms: string) {
    ts != [] && ts[0].Sym? && ts[0].c in syms
  }

  function FdOf(c: char): int { if c == '<' then 0 else 1 }

  // ---------------------------------------------------------------- the parse

  /** The loop of parseredirs. */
  function ParseRedirs(ts: seq<Tok>): (r: Redirs)
    ensures r.Redirs? ==> |r.rest| <= |ts|
    decreases |ts|
  {
    if !At(ts, "<>+") then Redirs([], ts)
    else if |ts| < 2 || !ts[1].Word? then NoFile
    else
      match ParseRedirs(ts[2..])
      case NoFile => NoFile
      case Redirs(rs, rest) => Redirs([(ts[1].w, FdOf(ts[0].c))] + rs, rest)
  }

  /** Each redirection wraps the command so far. */
  function Wrap(t: Tree, rs: seq<(string, int)>): Tree
    decreases |rs|
  {
    if rs == [] then t else Wrap(Redir(t, rs[0].0, rs[0].1), rs[1..])
  }

  /** The loop of parseexec: words and redirections up to one of "|)&;" or the end. */
  function ParseArgs(ts: seq<Tok>, args: seq<string>, rs: seq<(string, int)>): (r: Parse)
    ensures r.Ok? ==> |r.rest| <= |ts|
    decreases |ts|
  {
    if At(ts, "|)&;") || ts == [] then Ok(Wrap(Exec(args), rs), ts)
    else if !ts[0].Word? || |args| + 1 >= MAXARGS then Panic
    else
      match ParseRedirs(ts[1..])
      case NoFile => Panic
      case Redirs(more, rest) => ParseArgs(rest, args + [ts[0].w], rs + more)
  }

  function ParseExec(ts: seq<Tok>): (r: Parse)
    ensures r.Ok? ==> |r.rest| <= |ts|
    decreases |ts|, 1
  {
    if At(ts, "(") then ParseBlock(ts)
    else
      match ParseRedirs(ts)
      case NoFile => Panic
      case Redirs(rs, rest) => ParseArgs(rest, [], rs)
  }

  function ParseBlock(ts: seq<Tok>): (r: Parse)
    requires At(ts, "(")
    ensures r.Ok? ==> |r.rest| <= |ts|
    decreases |ts|, 0
  {
    match ParseLine(ts[1..])
    case Panic => Panic
    case Ok(t, rest) =>
      if !At(rest, ")") then Panic
      else
        match ParseRedirs(rest[1..])
        case NoFile => Panic
        case Redirs(rs, rest') => Ok(Wrap(t, rs), rest')
  }

  function ParsePipe(ts: seq<Tok>): (r: Parse)
    ensures r.Ok? ==> |r.rest| <= |ts|
    decreases |ts|, 2
  {
    match ParseExec(ts)
    case Panic => Panic
    case Ok(t, rest) =>
      if !At(rest, "|") then Ok(t, rest)
      else
        match ParsePipe(rest[1..])
        case Panic => Panic
        case Ok(u, rest') => Ok(Pipe(t, u), rest')
  }

  /** The loop of parseline over "&". */
  function ParseBacks(t: Tree, ts: seq<Tok>): (r: (Tree, seq<Tok>))
    ensures |r.1| <= |ts|
    decreases |ts|
  {
    if At(ts, "&") then ParseBacks(Back(t), ts[1..]) else (t, ts)
  }

  function ParseLine(ts: seq<Tok>): (r: Parse)
    ensures r.Ok? ==> |r.rest| <= |ts|
    decreases |ts|, 3
  {
    match ParsePipe(ts)
    case Panic => Panic
    case Ok(t0, rest0) =>
      var (t, rest) := ParseBacks(t0, rest0);
      if !At(rest, ";") then Ok(t, rest)
      else
        match ParseLine(rest[1..])
        case Panic => Panic
        case Ok(u, rest') => Ok(List(t, u), rest')
  }

  /** parsecmd: leftovers are a syntax error. */
  function ParseCmd(ts: seq<Tok>): Parse {
    match ParseLine(ts)
    case Panic => Panic
    case Ok(t, rest) => if rest == [] then Ok(t, rest) else Panic
  }

  // ---------------------------------------------------------------- printing

  function Words(args: seq<string>): seq<Tok> {
    seq(|args|, i requires 0 <= i < |args| => Word(args[i]))
  }

  function RedirToks(file: string, fd: int): seq<Tok> {
    [Sym(if fd == 0 then '<' else '>'), Word(file)]
  }

  /** A list, a background command or a pipe, without parentheses. */
  function Inner(t: Tree): seq<Tok>
    requires t.List? || t.Back? || t.Pipe?
    decreases t, 0
  {
    match t
    case List(l, r) => PrintBack(l) + [Sym(';')] + PrintLine(r)
    case Back(c) => PrintBack(c) + [Sym('&')]
    case Pipe(l, r) => PrintExec(l) + [Sym('|')] + PrintPipe(r)
  }

  function PrintLine(t: Tree): seq<Tok>
    decreases t, 4
  {
    if t.List? then Inner(t) else PrintBack(t)
  }

  function PrintBack(t: Tree): seq<Tok>
    decreases t, 3
  {
    if t.Back? then Inner(t) else PrintPipe(t)
  }

  function PrintPipe(t: Tree): seq<Tok>
    decreases t, 2
  {
    if t.Pipe? then Inner(t) else PrintExec(t)
  }

  /** Parentheses go around what parseexec cannot read bare. */
  function PrintExec(t: Tree): seq<Tok>
    decreases t, 1
  {
    match t
    case Exec(args) => Words(args)
    case Redir(c, file, fd) => PrintExec(c) + RedirToks(file, fd)
    case _ => [Sym('(')] + Inner(t) + [Sym(')')]
  }

  /** What the parser can produce: at most 9 arguments a command, and the two kinds of
      redirection. */
  predicate Sound(t: Tree) {
    match t
    case Exec(args) => |args| < MAXARGS
    case Redir(c, _, fd) => Sound(c) && (fd == 0 || fd == 1)
    case Pipe(l, r) => Sound(l) && Sound(r)
    case List(l, r) => Sound(l) && Sound(r)
    case Back(c) => Sound(c)
  }

  // ---------------------------------------------------------------- commands and their redirections

  /** A command without its redirections, and they, innermost first. */
  function Base(t: Tree): Tree {
    if t.Redir? then Base(t.cmd) else t
  }

  function Outer(t: Tree): seq<(string, int)> {
    if t.Redir? then Outer(t.cmd) + [(t.file, t.fd)] else []
  }

  lemma {:induction false} WrapSnoc(t: Tree, rs: seq<(string, int)>, x: (string, int))
    ensures Wrap(t, rs + [x]) == Redir(Wrap(t, rs), x.0, x.1)
    decreases |rs|
  {
    if rs == [] {
      assert rs + [x] == [x];
      assert Wrap(t, [x]) == Wrap(Redir(t, x.0, x.1), []);
    } else {
      assert (rs + [x])[1..] == rs[1..] + [x];
      WrapSnoc(Redir(t, rs[0].0, rs[0].1), rs[1..], x);
    }
  }

  /** What may follow a command, a pipeline, a background command and a line. */
  predicate AfterExec(rest: seq<Tok>) { rest == [] || At(rest, "|)&;") }
  predicate AfterPipe(rest: seq<Tok>) { rest == [] || At(rest, ")&;") }
  predicate AfterLine(rest: seq<Tok>) { rest == [] || At(rest, ")") }

  // ---------------------------------------------------------------- what a parse yields

  ghost predicate GoodFds(rs: seq<(string, int)>) {
    forall i :: 0 <= i < |rs| ==> rs[i].1 == 0 || rs[i].1 == 1
  }

  lemma {:induction false} WrapSound(t: Tree, rs: seq<(string, int)>)
    requires Sound(t) && GoodFds(rs)
    ensures Sound(Wrap(t, rs))
    decreases |rs|
  {
    if rs != [] {
      WrapSound(Redir(t, rs[0].0, rs[0].1), rs[1..]);
    }
  }

  lemma {:induction false} RedirsGood(ts: seq<Tok>)
    ensures ParseRedirs(ts).Redirs? ==> GoodFds(ParseRedirs(ts).rs)
    decreases |ts|
  {
    if At(ts, "<>+") && |ts| >= 2 && ts[1].Word? {
      RedirsGood(ts[2..]);
    }
  }

  lemma {:induction false} ArgsSound(ts: seq<Tok>, args: seq<string>, rs: seq<(string, int)>)
    requires GoodFds(rs) && |args| < MAXARGS
    ensures ParseArgs(ts, args, rs).Ok? ==> Sound(ParseArgs(ts, args, rs).t)
    decreases |ts|
  {
    if At(ts, "|)&;") || ts == [] {
      WrapSound(Exec(args), rs);
    } else if ts[0].Word? && |args| + 1 < MAXARGS {
      RedirsGood(ts[1..]);
      var r := ParseRedirs(ts[1..]);
      if r.Redirs? {
        ArgsSound(r.rest, args + [ts[0].w], rs + r.rs);
      }
    }
  }

  lemma {:induction false} BacksSound(t: Tree, ts: seq<Tok>)
    requires Sound(t)
    ensures Sound(ParseBacks(t, ts).0)
    decreases |ts|
  {
    if At(ts, "&") {
      BacksSound(Back(t), ts[1..]);
    }
  }

  lemma {:induction false} ExecSound(ts: seq<Tok>)
    ensures ParseExec(ts).Ok? ==> Sound(ParseExec(ts).t)
    decreases |ts|, 1
  {
    if At(ts, "(") {
      LineSound(ts[1..]);
      var p := ParseLine(ts[1..]);
      if p.Ok? && At(p.rest, ")") {
        RedirsGood(p.rest[1..]);
        var r := ParseRedirs(p.rest[1..]);
        if r.Redirs? {
          WrapSound(p.t, r.rs);
        }
      }
    } else {
      RedirsGood(ts);
      var r := ParseRedirs(ts);
      if r.Redirs? {
        ArgsSound(r.rest, [], r.rs);
      }
    }
  }

  lemma {:induction false} PipeSound(ts: seq<Tok>)
    ensures ParsePipe(ts).Ok? ==> Sound(ParsePipe(ts).t)
    decreases |ts|, 2
  {
    ExecSound(ts);
    var p := ParseExec(ts);
    if p.Ok? && At(p.rest, "|") {
      PipeSound(p.rest[1..]);
    }
  }

  /** The parser yields only trees that the round trip covers: no command has more than 9
      arguments. */
  lemma {:induction false} LineSound(ts: seq<Tok>)
    ensures ParseLine(ts).Ok? ==> Sound(ParseLine(ts).t)
    decreases |ts|, 3
  {
    PipeSound(ts);
    var p := ParsePipe(ts);
    if p.Ok? {
      BacksSound(p.t, p.rest);
      var b := ParseBacks(p.t, p.rest);
      if At(b.1, ";") {
        LineSound(b.1[1..]);
      }
    }
  }
}
