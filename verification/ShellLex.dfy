/** The shell's tokens (sh.c:257-306): what a text lexes to, whatever the white space in it. */
module ShellLex {
  import opened ShellGrammar

  predicate White(c: char) { c in " \t\r\n\U{0B}" }

  predicate Symbol(c: char) { c in "<|>&;()" }

  predicate Plain(c: char) { !White(c) && !Symbol(c) }

  // ---------------------------------------------------------------- the tokens of a text

  function SkipFrom(s: string, p: nat): (q: nat)
    requires p <= |s|
    ensures p <= q <= |s| && (q < |s| ==> !White(s[q])) && forall i :: p <= i < q ==> White(s[i])
    decreases |s| - p
  {
    if p < |s| && White(s[p]) then SkipFrom(s, p + 1) else p
  }

  function WordEnd(s: string, p: nat): (e: nat)
    requires p <= |s|
    ensures p <= e <= |s| && (e < |s| ==> !Plain(s[e])) && forall i :: p <= i < e ==> Plain(s[i])
    decreases |s| - p
  {
    if p < |s| && Plain(s[p]) then WordEnd(s, p + 1) else p
  }

  /** The token at q, where no white space is, and where it ends. */
  function TokAt(s: string, q: nat): (r: (Tok, nat))
    requires q < |s| && !White(s[q])
    ensures q < r.1 <= |s|
  {
    if Symbol(s[q]) then
      (if s[q] == '>' && q + 1 < |s| && s[q + 1] == '>' then (Sym('+'), q + 2) else (Sym(s[q]), q + 1))
    else (Word(s[q..WordEnd(s, q)]), WordEnd(s, q))
  }

  function Lex(s: string, p: nat): seq<Tok>
    requires p <= |s|
    decreases |s| - p
  {
    var q := SkipFrom(s, p);
    if q == |s| then [] else [TokAt(s, q).0] + Lex(s, TokAt(s, q).1)
  }

  /** Skipping white space loses no token. */
  lemma LexSkip(s: string, p: nat, q: nat)
    requires p <= q <= |s| && forall i :: p <= i < q ==> White(s[i])
    ensures Lex(s, p) == Lex(s, q)
  {
    SkipSkip(s, p, q);
  }

  lemma {:induction false} SkipSkip(s: string, p: nat, q: nat)
    requires p <= q <= |s| && forall i :: p <= i < q ==> White(s[i])
    ensures SkipFrom(s, p) == SkipFrom(s, q)
    decreases q - p
  {
    if p < q {
      SkipSkip(s, p + 1, q);
    }
  }

  // ---------------------------------------------------------------- spaced text

  /** A word that is not empty, or one of the symbols; '+' is ">>". */
  predicate GoodTok(t: Tok) {
    match t
    case Word(w) => w != "" && forall i :: 0 <= i < |w| ==> Plain(w[i])
    case Sym(c) => c in "<|>&;()+"
  }

  function Spelling(t: Tok): (x: string)
    ensures GoodTok(t) ==> x != ""
  {
    match t
    case Word(w) => w
    case Sym(c) => if c == '+' then ">>" else [c]
  }

  ghost predicate AllGood(ts: seq<Tok>) {
    forall i :: 0 <= i < |ts| ==> GoodTok(ts[i])
  }

  /** White space must stand between two words, and after ">" before another ">". */
  predicate Apart(t: Tok, u: Tok) {
    (t.Word? && u.Word?) || (t == Sym('>') && (u == Sym('>') || u == Sym('+')))
  }

  /** White space before each token and at the end, at least where it must stand. */
  ghost predicate Gaps(ts: seq<Tok>, gaps: seq<string>) {
    && |gaps| == |ts| + 1 && AllGood(ts)
    && (forall i {:trigger gaps[i]} :: 0 <= i < |gaps| ==> forall j :: 0 <= j < |gaps[i]| ==> White(gaps[i][j]))
    && (forall i {:trigger gaps[i]} :: 0 < i < |ts| && Apart(ts[i - 1], ts[i]) ==> gaps[i] != "")
  }

  /** The tokens spelled out with these gaps. */
  ghost function Render(ts: seq<Tok>, gaps: seq<string>): string
    requires |gaps| == |ts| + 1
    decreases |ts|
  {
    if ts == [] then gaps[0] else gaps[0] + Spelling(ts[0]) + Render(ts[1..], gaps[1..])
  }

  lemma GapsRest(ts: seq<Tok>, gaps: seq<string>)
    requires Gaps(ts, gaps) && ts != []
    ensures Gaps(ts[1..], gaps[1..]) && GoodTok(ts[0]) && forall j :: 0 <= j < |gaps[0]| ==> White(gaps[0][j])
  {
    var us, hs := ts[1..], gaps[1..];
    assert forall i :: 0 <= i < |us| ==> us[i] == ts[i + 1];
    assert forall i :: 0 <= i < |hs| ==> hs[i] == gaps[i + 1];
  }

  /** What follows token t: white space, the end, or a token that may stand right behind it. */
  lemma Follows(ts: seq<Tok>, gaps: seq<string>)
    requires Gaps(ts, gaps) && ts != []
    ensures var x := Render(ts[1..], gaps[1..]);
            x != "" && !White(x[0]) ==> |ts| > 1 && gaps[1] == "" && [x[0]] <= Spelling(ts[1]) && !Apart(ts[0], ts[1])
  {
    GapsRest(ts, gaps);
    assert gaps[1] == gaps[1..][0];
  }

  lemma NotBoth(c: char)
    ensures !(White(c) && Symbol(c)) && White(' ') && !Plain(' ')
  {}

  lemma NothingLeft(s: string)
    ensures Lex(s, |s|) == []
  {}

  lemma {:induction false} WordRuns(s: string, p: nat, e: nat)
    requires p <= e <= |s| && (e < |s| ==> !Plain(s[e])) && forall i :: p <= i < e ==> Plain(s[i])
    ensures WordEnd(s, p) == e
    decreases e - p
  {
    if p < e {
      WordRuns(s, p + 1, e);
    }
  }

  /** The token that stands at p. */
  lemma FirstTok(s: string, p: nat, t: Tok)
    requires GoodTok(t) && p + |Spelling(t)| <= |s| && s[p..p + |Spelling(t)|] == Spelling(t)
    requires var e := p + |Spelling(t)|;
             e < |s| ==> (t.Word? ==> !Plain(s[e])) && (t == Sym('>') ==> s[e] != '>')
    ensures !White(s[p]) && TokAt(s, p) == (t, p + |Spelling(t)|)
  {
    hide White;
    var x := Spelling(t);
    assert s[p] == x[0] && (|x| > 1 ==> s[p + 1] == x[1]);
    SymbolChars(x[0]);
    if t.Word? {
      forall i | p <= i < p + |x|
        ensures Plain(s[i])
      {
        assert s[p..p + |x|][i - p] == s[i];
      }
      WordRuns(s, p, p + |x|);
    }
  }

  lemma SymbolChars(c: char)
    ensures Symbol(c) <==> c in "<|>&;()"
    ensures Symbol(c) ==> !White(c)
  {}

  /** Tokens spelled out with any gaps, after any text, lex back. */
  lemma {:induction false} LexSpaced(pre: string, ts: seq<Tok>, gaps: seq<string>)
    requires Gaps(ts, gaps)
    ensures Lex(pre + Render(ts, gaps), |pre|) == ts
    decreases |ts|
  {
    hide White, Symbol, GoodTok, Spelling, TokAt, Lex, Gaps, Apart, SkipFrom;
    GapsShape(ts, gaps);
    var s := pre + Render(ts, gaps);
    var q := |pre| + |gaps[0]|;
    if ts == [] {
      GapsWhite(ts, gaps, pre, s);
      LexSkip(s, |pre|, |s|);
      NothingLeft(s);
    } else {
      GapsRest(ts, gaps);
      Follows(ts, gaps);
      GapsWhite(ts, gaps, pre, s);
      LexSkip(s, |pre|, q);
      var x, tail := Spelling(ts[0]), Render(ts[1..], gaps[1..]);
      var pre' := pre + gaps[0] + x;
      assert s == pre' + tail;
      LexSpaced(pre', ts[1..], gaps[1..]);
      assert s[q..q + |x|] == x;
      if tail != "" {
        assert s[|pre'|] == tail[0];
        MayFollow(ts, tail[0]);
      }
      FirstTok(s, q, ts[0]);
      LexOne(s, q);
      assert ts == [ts[0]] + ts[1..];
    }
  }

  lemma GapsShape(ts: seq<Tok>, gaps: seq<string>)
    requires Gaps(ts, gaps)
    ensures |gaps| == |ts| + 1 && AllGood(ts)
  {}

  lemma GapsWhite(ts: seq<Tok>, gaps: seq<string>, pre: string, s: string)
    requires Gaps(ts, gaps) && s == pre + Render(ts, gaps)
    ensures |pre| + |gaps[0]| <= |s| && (ts == [] ==> |pre| + |gaps[0]| == |s|)
    ensures forall i :: |pre| <= i < |pre| + |gaps[0]| ==> White(s[i])
  {
    hide White, Spelling;
    forall i | |pre| <= i < |pre| + |gaps[0]|
      ensures White(s[i])
    {
      assert s[i] == gaps[0][i - |pre|];
    }
  }

  /** The character c that is right behind the first token does not run on from it. */
  lemma MayFollow(ts: seq<Tok>, c: char)
    requires AllGood(ts) && ts != []
    requires !White(c) ==> |ts| > 1 && [c] <= Spelling(ts[1]) && !Apart(ts[0], ts[1])
    ensures (ts[0].Word? ==> !Plain(c)) && (ts[0] == Sym('>') ==> c != '>')
  {
    if !White(c) {
      assert GoodTok(ts[1]);
    }
  }

  lemma LexOne(s: string, q: nat)
    requires q < |s| && !White(s[q])
    ensures Lex(s, q) == [TokAt(s, q).0] + Lex(s, TokAt(s, q).1)
  {}

  /** What the rest of a text lexes to is what it spells, with its white space as the gaps. */
  lemma {:induction false} LexSplits(s: string, p: nat) returns (gaps: seq<string>)
    requires p <= |s|
    ensures Gaps(Lex(s, p), gaps) && s[p..] == Render(Lex(s, p), gaps)
    ensures gaps[0] == s[p..SkipFrom(s, p)]
    decreases |s| - p
  {
    hide White, Symbol, GoodTok, Spelling, Apart, Lex, Gaps, Render, TokAt;
    var q := SkipFrom(s, p);
    gaps := [s[p..q]];
    if q < |s| {
      var (t, e) := TokAt(s, q);
      TokSpells(s, q);
      var rest := LexSplits(s, e);
      TokApart(s, q);
      GapsCons(t, Lex(s, e), gaps[0], rest);
      gaps := gaps + rest;
      LexSkip(s, p, q);
      LexOne(s, q);
      assert s[p..] == s[p..q] + s[q..e] + s[e..];
    } else {
      LexSkip(s, p, q);
      NothingLeft(s);
      assert s[p..] == s[p..q];
      EndGap(gaps[0]);
    }
  }

  lemma GapsCons(t: Tok, ts: seq<Tok>, gap: string, gaps: seq<string>)
    requires Gaps(ts, gaps) && GoodTok(t) && (forall j :: 0 <= j < |gap| ==> White(gap[j]))
    requires ts != [] && Apart(t, ts[0]) ==> gaps[0] != ""
    ensures Gaps([t] + ts, [gap] + gaps)
    ensures Render([t] + ts, [gap] + gaps) == gap + Spelling(t) + Render(ts, gaps)
  {
    hide White, GoodTok, Spelling, Apart;
    var us, hs := [t] + ts, [gap] + gaps;
    assert us[1..] == ts && hs[1..] == gaps;
    assert forall i :: 0 < i < |us| ==> us[i] == ts[i - 1];
    assert forall i :: 0 < i < |hs| ==> hs[i] == gaps[i - 1];
  }

  lemma EndGap(gap: string)
    requires forall j :: 0 <= j < |gap| ==> White(gap[j])
    ensures Gaps([], [gap]) && Render([], [gap]) == gap
  {}

  lemma TokSpells(s: string, q: nat)
    requires q < |s| && !White(s[q])
    ensures GoodTok(TokAt(s, q).0) && Spelling(TokAt(s, q).0) == s[q..TokAt(s, q).1]
  {
    SymbolChars(s[q]);
    assert s[q..q + 1] == [s[q]];
    if q + 1 < |s| {
      assert s[q..q + 2] == [s[q], s[q + 1]];
    }
  }

  lemma TokApart(s: string, q: nat)
    requires q < |s| && !White(s[q])
    ensures var (t, e) := TokAt(s, q);
            Lex(s, e) != [] && Apart(t, Lex(s, e)[0]) ==> s[e..SkipFrom(s, e)] != ""
  {
    hide White, Symbol, Lex, SkipFrom, TokAt;
    var (t, e) := TokAt(s, q);
    if SkipFrom(s, e) == e {
      if e < |s| {
        LexOne(s, e);
        NextTok(s, q);
      } else {
        NothingLeft(s);
      }
    }
  }

  /** Tokens next to each other may be. */
  lemma NextTok(s: string, q: nat)
    requires q < |s| && !White(s[q]) && TokAt(s, q).1 < |s| && !White(s[TokAt(s, q).1])
    ensures !Apart(TokAt(s, q).0, TokAt(s, TokAt(s, q).1).0)
  {
    hide White, Symbol;
    SymbolChars(s[q]);
    SymbolChars(s[TokAt(s, q).1]);
  }

  /** A text lexes to exactly the tokens it spells out with white space that is enough to keep them
      apart. */
  lemma LexIsExact(s: string, ts: seq<Tok>)
    ensures Lex(s, 0) == ts <==> exists gaps {:trigger Gaps(ts, gaps)} :: Gaps(ts, gaps) && s == Render(ts, gaps)
  {
    if Lex(s, 0) == ts {
      var gaps := LexSplits(s, 0);
      assert s[0..] == s;
    }
    if gaps :| Gaps(ts, gaps) && s == Render(ts, gaps) {
      LexSpaced("", ts, gaps);
      assert "" + s == s;
    }
  }
}
