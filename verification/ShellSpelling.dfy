/** What the shell's grammar is (sh.c:325-444), as a relation between token sequences and command
    trees that says nothing about how to parse: the parser accepts exactly the sequences that spell
    a tree, and yields that tree. */
module ShellSpelling {
  import opened ShellGrammar

  // ---------------------------------------------------------------- the relation

  /** A redirection of the file w for fd. */
  predicate IsRedir(op: Tok, file: Tok, w: string, fd: int) {
    op.Sym? && op.c in "<>+" && file == Word(w) && fd == if op.c == '<' then 0 else 1
  }

  /** Words and redirections in any mixture: the words are args, the redirections rs, in order. */
  predicate Items(args: seq<string>, rs: seq<(string, int)>, ts: seq<Tok>)
    decreases |ts|
  {
    if ts == [] then args == [] && rs == []
    else
      || (args != [] && ts[0] == Word(args[0]) && Items(args[1..], rs, ts[1..]))
      || (rs != [] && |ts| >= 2 && IsRedir(ts[0], ts[1], rs[0].0, rs[0].1) && Items(args, rs[1..], ts[2..]))
  }

  /** A line is a list, or what "&" may end. */
  ghost predicate Spells(t: Tree, ts: seq<Tok>)
    decreases |ts|, 4
  {
    || SpellsBack(t, ts)
    || (t.List? && exists i {:trigger ts[i]} :: 0 <= i < |ts| && ts[i] == Sym(';')
                     && SpellsBack(t.left, ts[..i]) && Spells(t.right, ts[i + 1..]))
  }

  ghost predicate SpellsBack(t: Tree, ts: seq<Tok>)
    decreases |ts|, 3
  {
    || SpellsPipe(t, ts)
    || (t.Back? && ts != [] && ts[|ts| - 1] == Sym('&') && SpellsBack(t.cmd, ts[..|ts| - 1]))
  }

  ghost predicate SpellsPipe(t: Tree, ts: seq<Tok>)
    decreases |ts|, 2
  {
    || SpellsExec(t, ts)
    || (t.Pipe? && exists i {:trigger ts[i]} :: 0 <= i < |ts| && ts[i] == Sym('|')
                     && SpellsExec(t.left, ts[..i]) && SpellsPipe(t.right, ts[i + 1..]))
  }

  /** A command is at most 9 words with redirections anywhere among them, or a line in parentheses
      with redirections behind it. */
  ghost predicate SpellsExec(t: Tree, ts: seq<Tok>)
    decreases |ts|, 1
  {
    || (Base(t).Exec? && |Base(t).args| <= 9 && Items(Base(t).args, Outer(t), ts))
    || SpellsBlock(t, ts)
  }

  ghost predicate SpellsBlock(t: Tree, ts: seq<Tok>)
    decreases |ts|, 0
  {
    && |ts| >= 2
    && (|| (ts[0] == Sym('(') && ts[|ts| - 1] == Sym(')') && Spells(t, ts[1..|ts| - 1]))
        || (t.Redir? && IsRedir(ts[|ts| - 2], ts[|ts| - 1], t.file, t.fd) && SpellsBlock(t.cmd, ts[..|ts| - 2])))
  }

  // ---------------------------------------------------------------- words and redirections

  lemma ItemsCons(w: string, ws: seq<string>, rs: seq<(string, int)>, ts: seq<Tok>)
    requires Items(ws, rs, ts)
    ensures Items([w] + ws, rs, [Word(w)] + ts)
  {
    assert ([w] + ws)[1..] == ws && ([Word(w)] + ts)[1..] == ts;
  }

  lemma RedirCons(op: Tok, file: Tok, v: (string, int), ws: seq<string>, rs: seq<(string, int)>, ts: seq<Tok>)
    requires IsRedir(op, file, v.0, v.1) && Items(ws, rs, ts)
    ensures Items(ws, [v] + rs, [op, file] + ts)
  {
    assert ([v] + rs)[1..] == rs && ([op, file] + ts)[2..] == ts;
  }

  lemma ItemsCases(a: seq<string>, r: seq<(string, int)>, x: seq<Tok>)
    requires Items(a, r, x)
    ensures x == [] ==> a == [] && r == []
    ensures x != [] ==>
              || (a != [] && x[0] == Word(a[0]) && Items(a[1..], r, x[1..]))
              || (r != [] && |x| >= 2 && IsRedir(x[0], x[1], r[0].0, r[0].1) && Items(a, r[1..], x[2..]))
  {}

  lemma {:induction false} ItemsJoin(a: seq<string>, r: seq<(string, int)>, x: seq<Tok>,
                                     b: seq<string>, q: seq<(string, int)>, y: seq<Tok>)
    requires Items(a, r, x) && Items(b, q, y)
    ensures Items(a + b, r + q, x + y)
    decreases |x|
  {
    hide Items, IsRedir;
    ItemsCases(a, r, x);
    if x == [] {
      assert a + b == b && r + q == q && x + y == y;
    } else if a != [] && x[0] == Word(a[0]) && Items(a[1..], r, x[1..]) {
      ItemsJoin(a[1..], r, x[1..], b, q, y);
      ItemsCons(a[0], a[1..] + b, r + q, x[1..] + y);
      assert [a[0]] + (a[1..] + b) == a + b && [x[0]] + (x[1..] + y) == x + y;
    } else {
      ItemsJoin(a, r[1..], x[2..], b, q, y);
      RedirCons(x[0], x[1], r[0], a + b, r[1..] + q, x[2..] + y);
      assert [r[0]] + (r[1..] + q) == r + q && [x[0], x[1]] + (x[2..] + y) == x + y;
    }
  }

  lemma NoItems()
    ensures Items([], [], [])
  {}

  lemma OneRedir(op: Tok, file: Tok, w: string, fd: int)
    requires IsRedir(op, file, w, fd)
    ensures Items([], [(w, fd)], [op, file])
  {
    assert [(w, fd)][1..] == [] && [op, file][2..] == [];
    assert Items([], [], []);
  }

  lemma {:induction false} WrapParts(t: Tree, rs: seq<(string, int)>)
    ensures Base(Wrap(t, rs)) == Base(t) && Outer(Wrap(t, rs)) == Outer(t) + rs
    decreases |rs|
  {
    if rs == [] {
      assert Outer(t) + [] == Outer(t);
    } else {
      WrapParts(Redir(t, rs[0].0, rs[0].1), rs[1..]);
      assert Outer(t) + [(rs[0].0, rs[0].1)] + rs[1..] == Outer(t) + rs;
    }
  }

  lemma {:induction false} Unwrapped(t: Tree)
    ensures Wrap(Base(t), Outer(t)) == t && !Base(t).Redir?
    decreases t
  {
    if t.Redir? {
      Unwrapped(t.cmd);
      WrapSnoc(Base(t.cmd), Outer(t.cmd), (t.file, t.fd));
    }
  }

  // ---------------------------------------------------------------- what is parsed spells its tree

  lemma {:induction false} RedirsRead(ts: seq<Tok>) returns (x: seq<Tok>)
    requires ParseRedirs(ts).Redirs?
    ensures var r := ParseRedirs(ts); ts == x + r.rest && Items([], r.rs, x) && !At(r.rest, "<>+")
    decreases |ts|
  {
    x := [];
    if At(ts, "<>+") {
      var y := RedirsRead(ts[2..]);
      x := ts[..2] + y;
      OneRedir(ts[0], ts[1], ts[1].w, FdOf(ts[0].c));
      ItemsJoin([], [(ts[1].w, FdOf(ts[0].c))], ts[..2], [], ParseRedirs(ts[2..]).rs, y);
      var none: seq<string> := [];
      assert none + none == none && ts[..2] == [ts[0], ts[1]];
    }
  }

  lemma ArgsEnd(ts: seq<Tok>, args: seq<string>, rs: seq<(string, int)>)
    requires AfterExec(ts)
    ensures ParseArgs(ts, args, rs) == Ok(Wrap(Exec(args), rs), ts)
  {}

  lemma ArgsNext(ts: seq<Tok>, args: seq<string>, rs: seq<(string, int)>)
    requires ParseArgs(ts, args, rs).Ok? && !AfterExec(ts)
    ensures ts != [] && ts[0].Word? && |args| + 1 < MAXARGS
    ensures var r := ParseRedirs(ts[1..]);
            && r.Redirs? && |r.rest| < |ts|
            && ParseArgs(ts, args, rs) == ParseArgs(r.rest, args + [ts[0].w], rs + r.rs)
  {}

  lemma WordAndRedirs(w: string, rs: seq<(string, int)>, y: seq<Tok>, ws: seq<string>, more: seq<(string, int)>,
                      z: seq<Tok>)
    requires Items([], rs, y) && Items(ws, more, z)
    ensures Items([w] + ws, rs + more, [Word(w)] + (y + z))
  {
    hide Items;
    ItemsJoin([], rs, y, ws, more, z);
    assert [] + ws == ws;
    ItemsCons(w, ws, rs + more, y + z);
  }

  lemma Regroup<T>(a: seq<T>, b: seq<T>, c: seq<T>)
    ensures a + b + c == a + (b + c)
  {}

  lemma {:induction false} ArgsRead(ts: seq<Tok>, args: seq<string>, rs: seq<(string, int)>)
    returns (x: seq<Tok>, ws: seq<string>, more: seq<(string, int)>)
    requires ParseArgs(ts, args, rs).Ok? && |args| <= 9
    ensures var p := ParseArgs(ts, args, rs);
            && ts == x + p.rest && p.t == Wrap(Exec(args + ws), rs + more) && Items(ws, more, x)
            && |args + ws| <= 9 && AfterExec(p.rest)
    decreases |ts|
  {
    hide Items, Wrap, ParseRedirs, ParseArgs, AfterExec;
    if AfterExec(ts) {
      x, ws, more := [], [], [];
      NoItems();
      ArgsEnd(ts, args, rs);
      assert args + ws == args && rs + more == rs;
    } else {
      ArgsNext(ts, args, rs);
      var w, r := ts[0].w, ParseRedirs(ts[1..]);
      var y := RedirsRead(ts[1..]);
      var z, vs, next := ArgsRead(r.rest, args + [w], rs + r.rs);
      x, ws, more := [ts[0]] + (y + z), [w] + vs, r.rs + next;
      WordAndRedirs(w, r.rs, y, vs, next, z);
      Regroup(args, [w], vs);
      Regroup(rs, r.rs, next);
      Regroup(y, z, ParseArgs(ts, args, rs).rest);
      assert ts == [ts[0]] + ts[1..];
    }
  }

  /** Redirections behind a command in parentheses. */
  lemma {:induction false} BlockRedirs(t: Tree, x: seq<Tok>, rs: seq<(string, int)>, y: seq<Tok>)
    requires SpellsBlock(t, x) && Items([], rs, y)
    ensures SpellsBlock(Wrap(t, rs), x + y)
    decreases |rs|
  {
    hide Spells, IsRedir;
    if y == [] {
      assert x + y == x;
    } else {
      var u, z := Redir(t, rs[0].0, rs[0].1), x + y[..2];
      assert z[..|z| - 2] == x && z[|z| - 2] == y[0] && z[|z| - 1] == y[1];
      BlockRedirs(u, z, rs[1..], y[2..]);
      assert x + y == z + y[2..];
    }
  }

  lemma {:induction false} ExecRead(ts: seq<Tok>) returns (x: seq<Tok>)
    requires ParseExec(ts).Ok?
    ensures ts == x + ParseExec(ts).rest && SpellsExec(ParseExec(ts).t, x)
    decreases |ts|, 1
  {
    hide Spells, Items, Wrap, ParseLine, ParseRedirs, ParseArgs;
    if At(ts, "(") {
      var y := LineRead(ts[1..]);
      var p := ParseLine(ts[1..]);
      var z := RedirsRead(p.rest[1..]);
      var r := ParseRedirs(p.rest[1..]);
      x := [ts[0]] + y + [p.rest[0]];
      assert x[1..|x| - 1] == y;
      BlockRedirs(p.t, x, r.rs, z);
      x := x + z;
    } else {
      var r := ParseRedirs(ts);
      var y := RedirsRead(ts);
      var z, ws, more := ArgsRead(r.rest, [], r.rs);
      x := y + z;
      ItemsJoin([], r.rs, y, ws, more, z);
      assert [] + ws == ws;
      WrapParts(Exec(ws), r.rs + more);
      assert [] + (r.rs + more) == r.rs + more;
    }
  }

  lemma {:induction false} PipeRead(ts: seq<Tok>) returns (x: seq<Tok>)
    requires ParsePipe(ts).Ok?
    ensures ts == x + ParsePipe(ts).rest && SpellsPipe(ParsePipe(ts).t, x)
    decreases |ts|, 2
  {
    hide SpellsExec, ParseExec;
    x := ExecRead(ts);
    var p := ParseExec(ts);
    if At(p.rest, "|") {
      var y := PipeRead(p.rest[1..]);
      var left := x;
      x := left + [p.rest[0]] + y;
      assert x[..|left|] == left && x[|left|] == Sym('|') && x[|left| + 1..] == y;
    }
  }

  lemma {:induction false} BacksRead(t: Tree, ts: seq<Tok>, y: seq<Tok>) returns (x: seq<Tok>)
    requires SpellsBack(t, y)
    ensures var p := ParseBacks(t, ts); y + ts == x + p.1 && SpellsBack(p.0, x)
    decreases |ts|
  {
    hide SpellsPipe;
    x := y;
    if At(ts, "&") {
      var z := y + [ts[0]];
      assert z[..|z| - 1] == y;
      x := BacksRead(Back(t), ts[1..], z);
      assert y + ts == z + ts[1..];
    }
  }

  lemma {:induction false} LineRead(ts: seq<Tok>) returns (x: seq<Tok>)
    requires ParseLine(ts).Ok?
    ensures ts == x + ParseLine(ts).rest && Spells(ParseLine(ts).t, x)
    decreases |ts|, 3
  {
    hide SpellsPipe, ParsePipe;
    var p := ParsePipe(ts);
    var y := PipeRead(ts);
    x := BacksRead(p.t, p.rest, y);
    var q := ParseBacks(p.t, p.rest);
    if At(q.1, ";") {
      var z := LineRead(q.1[1..]);
      var left := x;
      x := left + [q.1[0]] + z;
      assert x[..|left|] == left && x[|left|] == Sym(';') && x[|left| + 1..] == z;
    }
  }

  // ---------------------------------------------------------------- what spells a tree is parsed

  lemma {:induction false} RedirsParse(rs: seq<(string, int)>, ts: seq<Tok>, rest: seq<Tok>)
    requires Items([], rs, ts) && !At(rest, "<>+")
    ensures ParseRedirs(ts + rest) == Redirs(rs, rest)
    decreases |ts|
  {
    if ts == [] {
      assert ts + rest == rest;
    } else {
      RedirsParse(rs[1..], ts[2..], rest);
      assert (ts + rest)[2..] == ts[2..] + rest;
      assert [rs[0]] + rs[1..] == rs;
    }
  }

  lemma NoRedirs(rest: seq<Tok>)
    requires AfterExec(rest)
    ensures ParseRedirs(rest) == Redirs([], rest)
  {}

  lemma WordNext(ts: seq<Tok>, args: seq<string>, rs: seq<(string, int)>)
    requires ts != [] && ts[0].Word? && |args| < 9 && ParseRedirs(ts[1..]).Redirs?
    ensures ParseRedirs(ts) == Redirs([], ts)
    ensures var r := ParseRedirs(ts[1..]);
            ParseArgs(ts, args, rs + []) == ParseArgs(r.rest, args + [ts[0].w], rs + r.rs)
  {
    assert rs + [] == rs;
  }

  lemma RedirNext(ts: seq<Tok>, x: (string, int))
    requires |ts| >= 2 && IsRedir(ts[0], ts[1], x.0, x.1) && ParseRedirs(ts[2..]).Redirs?
    ensures var r := ParseRedirs(ts[2..]); ParseRedirs(ts) == Redirs([x] + r.rs, r.rest)
  {}

  /** Words and redirections in any mixture, with args and rs read before. */
  lemma {:induction false} ItemsParse(ws: seq<string>, more: seq<(string, int)>, ts: seq<Tok>, rest: seq<Tok>,
                                      args: seq<string>, rs: seq<(string, int)>)
    requires Items(ws, more, ts) && AfterExec(rest) && |args + ws| <= 9
    ensures var r := ParseRedirs(ts + rest);
            r.Redirs? && ParseArgs(r.rest, args, rs + r.rs) == Ok(Wrap(Exec(args + ws), rs + more), rest)
    decreases |ts|
  {
    hide Wrap, ParseArgs, ParseRedirs, AfterExec;
    var all := ts + rest;
    if ts == [] {
      assert all == rest && args + ws == args && rs + more == rs;
      NoRedirs(rest);
      ArgsEnd(rest, args, rs);
    } else if ws != [] && ts[0] == Word(ws[0]) && Items(ws[1..], more, ts[1..]) {
      assert all[1..] == ts[1..] + rest;
      Regroup(args, [ws[0]], ws[1..]);
      assert [ws[0]] + ws[1..] == ws;
      ItemsParse(ws[1..], more, ts[1..], rest, args + [ws[0]], rs);
      WordNext(all, args, rs);
    } else {
      assert all[2..] == ts[2..] + rest;
      var x := more[0];
      ItemsParse(ws, more[1..], ts[2..], rest, args, rs + [x]);
      RedirNext(all, x);
      Regroup(rs, [x], more[1..]);
      assert [x] + more[1..] == more;
      Regroup(rs, [x], ParseRedirs(all[2..]).rs);
    }
  }

  /** A command in parentheses, and redirections behind it. */
  lemma {:induction false} BlockParse(t: Tree, ts: seq<Tok>, rs: seq<(string, int)>, y: seq<Tok>, rest: seq<Tok>)
    requires SpellsBlock(t, ts) && Items([], rs, y) && AfterExec(rest)
    ensures At(ts, "(") && ParseExec(ts + (y + rest)) == Ok(Wrap(t, rs), rest)
    decreases |ts|, 0
  {
    hide Items, ParseExec, ParseLine, ParseRedirs, IsRedir, Spells, Wrap, AfterExec;
    if ts[0] == Sym('(') && ts[|ts| - 1] == Sym(')') && Spells(t, ts[1..|ts| - 1]) {
      var inner, tail := ts[1..|ts| - 1], [Sym(')')] + (y + rest);
      LineParse(t, inner, tail);
      RedirsStop(rest);
      RedirsParse(rs, y, rest);
      assert (ts + (y + rest))[1..] == inner + tail && tail[1..] == y + rest;
      BlockReads(ts + (y + rest), tail, t, rs, rest);
    } else {
      var n := |ts| - 2;
      RedirFirst(ts[n], ts[n + 1], t, rs, y);
      BlockParse(t.cmd, ts[..n], [(t.file, t.fd)] + rs, [ts[n], ts[n + 1]] + y, rest);
      assert ts + (y + rest) == ts[..n] + ([ts[n], ts[n + 1]] + y + rest);
    }
  }

  lemma RedirsStop(rest: seq<Tok>)
    requires AfterExec(rest)
    ensures !At(rest, "<>+")
  {}

  /** The parts of a command in parentheses. */
  lemma BlockReads(ts: seq<Tok>, mid: seq<Tok>, t: Tree, rs: seq<(string, int)>, rest: seq<Tok>)
    requires At(ts, "(") && At(mid, ")")
    requires ParseLine(ts[1..]) == Ok(t, mid) && ParseRedirs(mid[1..]) == Redirs(rs, rest)
    ensures ParseExec(ts) == Ok(Wrap(t, rs), rest)
  {
    hide ParseLine, ParseRedirs, Wrap;
  }

  lemma RedirFirst(op: Tok, file: Tok, t: Tree, rs: seq<(string, int)>, y: seq<Tok>)
    requires t.Redir? && IsRedir(op, file, t.file, t.fd) && Items([], rs, y)
    ensures Items([], [(t.file, t.fd)] + rs, [op, file] + y)
    ensures Wrap(t.cmd, [(t.file, t.fd)] + rs) == Wrap(t, rs)
  {
    hide IsRedir;
    OneRedir(op, file, t.file, t.fd);
    ItemsJoin([], [(t.file, t.fd)], [op, file], [], rs, y);
    var none: seq<string> := [];
    assert none + none == none;
    assert ([(t.file, t.fd)] + rs)[1..] == rs;
  }

  lemma {:induction false} ExecParse(t: Tree, ts: seq<Tok>, rest: seq<Tok>)
    requires SpellsExec(t, ts) && AfterExec(rest)
    ensures ParseExec(ts + rest) == Ok(t, rest)
    decreases |ts|, 1
  {
    hide SpellsBlock, ParseArgs, ParseRedirs, Wrap;
    if SpellsBlock(t, ts) {
      BlockParse(t, ts, [], [], rest);
      assert [] + rest == rest && Wrap(t, []) == t by {
        NoWrap(t);
      }
    } else {
      Unwrapped(t);
      ItemsParse(Base(t).args, Outer(t), ts, rest, [], []);
      var r := ParseRedirs(ts + rest);
      assert [] + r.rs == r.rs && [] + Outer(t) == Outer(t) && [] + Base(t).args == Base(t).args;
      ItemsStart(Base(t).args, Outer(t), ts, rest);
    }
  }

  lemma NoWrap(t: Tree)
    ensures Wrap(t, []) == t
  {}

  lemma ItemsStart(ws: seq<string>, rs: seq<(string, int)>, ts: seq<Tok>, rest: seq<Tok>)
    requires Items(ws, rs, ts) && AfterExec(rest)
    ensures !At(ts + rest, "(")
  {
    if ts == [] {
      assert ts + rest == rest;
    }
  }

  lemma {:induction false} PipeParse(t: Tree, ts: seq<Tok>, rest: seq<Tok>)
    requires SpellsPipe(t, ts) && AfterPipe(rest)
    ensures ParsePipe(ts + rest) == Ok(t, rest)
    decreases |ts|, 2
  {
    hide SpellsExec, ParseExec;
    if SpellsExec(t, ts) {
      ExecParse(t, ts, rest);
    } else {
      var i :| 0 <= i < |ts| && ts[i] == Sym('|') && SpellsExec(t.left, ts[..i]) && SpellsPipe(t.right, ts[i + 1..]);
      var tail := [Sym('|')] + (ts[i + 1..] + rest);
      Around(ts, i, Sym('|'), rest);
      ExecParse(t.left, ts[..i], tail);
      PipeParse(t.right, ts[i + 1..], rest);
    }
  }

  /** Reading what spells t before "&" comes to having read t. */
  lemma {:induction false} BackParse(t: Tree, ts: seq<Tok>, rest: seq<Tok>)
    requires SpellsBack(t, ts) && AfterPipe(rest)
    ensures var p := ParsePipe(ts + rest); p.Ok? && ParseBacks(p.t, p.rest) == ParseBacks(t, rest)
    decreases |ts|, 3
  {
    hide SpellsPipe, ParsePipe;
    if SpellsPipe(t, ts) {
      PipeParse(t, ts, rest);
    } else {
      var n := |ts| - 1;
      var tail := [Sym('&')] + rest;
      BackParse(t.cmd, ts[..n], tail);
      assert ts + rest == ts[..n] + tail && tail[1..] == rest;
    }
  }

  lemma {:induction false} LineParse(t: Tree, ts: seq<Tok>, rest: seq<Tok>)
    requires Spells(t, ts) && AfterLine(rest)
    ensures ParseLine(ts + rest) == Ok(t, rest)
    decreases |ts|, 4
  {
    hide SpellsBack, ParsePipe, ParseBacks, ParseLine;
    if SpellsBack(t, ts) {
      BackParse(t, ts, rest);
      StopBacks(t, rest);
      BackReads(t, ts + rest, rest);
    } else {
      var i :| 0 <= i < |ts| && ts[i] == Sym(';') && SpellsBack(t.left, ts[..i]) && Spells(t.right, ts[i + 1..]);
      var tail := [Sym(';')] + (ts[i + 1..] + rest);
      Around(ts, i, Sym(';'), rest);
      BackParse(t.left, ts[..i], tail);
      StopBacks(t.left, tail);
      LineParse(t.right, ts[i + 1..], rest);
      ListReads(t, ts + rest, tail, rest);
    }
  }

  lemma BackReads(t: Tree, ts: seq<Tok>, rest: seq<Tok>)
    requires ParsePipe(ts).Ok? && ParseBacks(ParsePipe(ts).t, ParsePipe(ts).rest) == (t, rest) && !At(rest, ";")
    ensures ParseLine(ts) == Ok(t, rest)
  {
    hide ParsePipe, ParseBacks;
  }

  /** The parts of a list. */
  lemma ListReads(t: Tree, ts: seq<Tok>, mid: seq<Tok>, rest: seq<Tok>)
    requires t.List? && At(mid, ";") && ParsePipe(ts).Ok?
    requires ParseBacks(ParsePipe(ts).t, ParsePipe(ts).rest) == (t.left, mid)
    requires |mid| <= |ts| && ParseLine(mid[1..]) == Ok(t.right, rest)
    ensures ParseLine(ts) == Ok(t, rest)
  {
    hide ParsePipe, ParseBacks;
  }

  lemma Around(ts: seq<Tok>, i: nat, x: Tok, rest: seq<Tok>)
    requires i < |ts| && ts[i] == x
    ensures var tail := [x] + (ts[i + 1..] + rest);
            ts + rest == ts[..i] + tail && tail[1..] == ts[i + 1..] + rest && |tail| <= |ts + rest|
  {}

  lemma StopBacks(t: Tree, rest: seq<Tok>)
    requires !At(rest, "&")
    ensures ParseBacks(t, rest) == (t, rest)
  {}

  /** The parser accepts exactly the token sequences that spell a tree, whole, and yields it. */
  lemma ParsesWhatSpells(t: Tree, ts: seq<Tok>)
    ensures ParseCmd(ts) == Ok(t, []) <==> Spells(t, ts)
  {
    hide Spells, ParseLine;
    if Spells(t, ts) {
      LineParse(t, ts, []);
      assert ts + [] == ts;
    }
    if ParseCmd(ts) == Ok(t, []) {
      var x := LineRead(ts);
      assert x + [] == x;
    }
  }

  // ---------------------------------------------------------------- what is printed spells its tree

  lemma {:induction false} WordsItems(ws: seq<string>)
    ensures Items(ws, [], Words(ws))
  {
    if ws != [] {
      WordsItems(ws[1..]);
      ItemsCons(ws[0], ws[1..], [], Words(ws[1..]));
      assert [ws[0]] + ws[1..] == ws && [Word(ws[0])] + Words(ws[1..]) == Words(ws);
    }
  }

  lemma {:induction false} BareItems(t: Tree)
    requires Sound(t) && Base(t).Exec?
    ensures Items(Base(t).args, Outer(t), PrintExec(t)) && |Base(t).args| <= 9
    decreases t
  {
    if t.Redir? {
      BareItems(t.cmd);
      var x := RedirToks(t.file, t.fd);
      OneRedir(x[0], x[1], t.file, t.fd);
      ItemsJoin(Base(t.cmd).args, Outer(t.cmd), PrintExec(t.cmd), [], [(t.file, t.fd)], x);
      assert Base(t.cmd).args + [] == Base(t.cmd).args;
    } else {
      WordsItems(t.args);
    }
  }

  lemma {:induction false} BlockPrinted(t: Tree)
    requires Sound(t) && !Base(t).Exec?
    ensures SpellsBlock(t, PrintExec(t))
    decreases t, 1
  {
    hide Spells;
    var x := PrintExec(t);
    if t.Redir? {
      BlockPrinted(t.cmd);
      assert x[..|x| - 2] == PrintExec(t.cmd);
    } else {
      InnerPrinted(t);
      assert x[1..|x| - 1] == Inner(t);
    }
  }

  lemma {:induction false} ExecPrinted(t: Tree)
    requires Sound(t)
    ensures SpellsExec(t, PrintExec(t))
    decreases t, 2
  {
    hide SpellsBlock;
    if Base(t).Exec? {
      BareItems(t);
    } else {
      BlockPrinted(t);
    }
  }

  /** A list, background command or pipe, unparenthesised, is a line; a pipe is what "|" makes. */
  lemma {:induction false} InnerPrinted(t: Tree)
    requires Sound(t) && (t.List? || t.Back? || t.Pipe?)
    ensures Spells(t, Inner(t)) && (t.Pipe? ==> SpellsPipe(t, Inner(t))) && (t.Back? ==> SpellsBack(t, Inner(t)))
    decreases t, 0
  {
    var x := Inner(t);
    match t
    case List(l, r) =>
      BackPrinted(l);
      LinePrinted(r);
      var i := |PrintBack(l)|;
      assert x[i] == Sym(';') && x[..i] == PrintBack(l) && x[i + 1..] == PrintLine(r);
    case Back(c) =>
      BackPrinted(c);
      assert x[..|x| - 1] == PrintBack(c);
    case Pipe(l, r) =>
      ExecPrinted(l);
      PipePrinted(r);
      var i := |PrintExec(l)|;
      assert x[i] == Sym('|') && x[..i] == PrintExec(l) && x[i + 1..] == PrintPipe(r);
  }

  lemma {:induction false} PipePrinted(t: Tree)
    requires Sound(t)
    ensures SpellsPipe(t, PrintPipe(t))
    decreases t, 3
  {
    if t.Pipe? {
      InnerPrinted(t);
    } else {
      ExecPrinted(t);
    }
  }

  lemma {:induction false} BackPrinted(t: Tree)
    requires Sound(t)
    ensures SpellsBack(t, PrintBack(t))
    decreases t, 4
  {
    if t.Back? {
      InnerPrinted(t);
    } else {
      PipePrinted(t);
    }
  }

  lemma {:induction false} LinePrinted(t: Tree)
    requires Sound(t)
    ensures Spells(t, PrintLine(t))
    decreases t, 5
  {
    if t.List? {
      InnerPrinted(t);
    } else {
      BackPrinted(t);
    }
  }

  /** A command with its redirections reads back, whatever may follow it. */
  lemma ExecBack(t: Tree, rest: seq<Tok>)
    requires Sound(t) && AfterExec(rest)
    ensures ParseExec(PrintExec(t) + rest) == Ok(t, rest)
  {
    ExecPrinted(t);
    ExecParse(t, PrintExec(t), rest);
  }

  /** A list, background command or pipe, unparenthesised, reads back as a line. */
  lemma InnerBack(t: Tree, rest: seq<Tok>)
    requires Sound(t) && AfterLine(rest) && (t.List? || t.Back? || t.Pipe?)
    ensures ParseLine(Inner(t) + rest) == Ok(t, rest)
  {
    InnerPrinted(t);
    LineParse(t, Inner(t), rest);
  }

  /** The round trip: printing any command tree and parsing it gives the tree back. */
  lemma RoundTrip(t: Tree)
    requires Sound(t)
    ensures ParseCmd(PrintLine(t)) == Ok(t, [])
  {
    LinePrinted(t);
    ParsesWhatSpells(t, PrintLine(t));
  }
}
