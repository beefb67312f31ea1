/** The regular-expression matcher of grep (grep.c:72-106) is sound and complete for the
    language its patterns denote. Strings are sequences without the terminating NUL. */
module Grep {

  // c, or any character when c is '.'; c* for zero or more of them.
  datatype Item = Lit(c: char) | Star(c: char)

  datatype Regex = Regex(atStart: bool, items: seq<Item>, atEnd: bool)

  predicate Fits(c: char, x: char) {
    c == '.' || c == x
  }

  // ---------------------------------------------------------------- what a pattern denotes

  /** The strings one item matches. */
  ghost predicate InItem(item: Item, u: string) {
    match item
    case Lit(c) => |u| == 1 && Fits(c, u[0])
    case Star(c) => forall i :: 0 <= i < |u| ==> Fits(c, u[i])
  }

  /** The concatenation of the items' languages. */
  ghost predicate InItems(items: seq<Item>, w: string)
    decreases |items|
  {
    if items == [] then w == ""
    else exists k :: 0 <= k <= |w| && InItem(items[0], w[..k]) && InItems(items[1..], w[k..])
  }

  /** A prefix of the text, or all of it under a final '$', is in the language. */
  ghost predicate DenotesHere(items: seq<Item>, atEnd: bool, text: string) {
    exists k :: 0 <= k <= |text| && InItems(items, text[..k]) && (atEnd ==> k == |text|)
  }

  /** So is a prefix of some suffix, or of the text itself under a leading '^'. */
  ghost predicate Denotes(r: Regex, text: string) {
    exists j :: 0 <= j <= |text| && DenotesHere(r.items, r.atEnd, text[j..]) && (r.atStart ==> j == 0)
  }

  /** Reads a pattern after its '^': '*' after any character binds first, a last '$' anchors, and
      every other character, special or not, stands for itself ('.' for any). */
  function ItemsOf(re: string): Regex {
    if re == "" then Regex(false, [], false)
    else if |re| >= 2 && re[1] == '*' then
      var rest := ItemsOf(re[2..]);
      rest.(items := [Star(re[0])] + rest.items)
    else if re == "$" then Regex(false, [], true)
    else
      var rest := ItemsOf(re[1..]);
      rest.(items := [Lit(re[0])] + rest.items)
  }

  function RegexOf(re: string): Regex {
    if re != "" && re[0] == '^' then ItemsOf(re[1..]).(atStart := true) else ItemsOf(re)
  }

  ghost predicate Here(re: string, text: string) {
    DenotesHere(ItemsOf(re).items, ItemsOf(re).atEnd, text)
  }

  // ---------------------------------------------------------------- laws of the language

  lemma HereEmpty(text: string)
    ensures DenotesHere([], false, text)
    ensures DenotesHere([], true, text) <==> text == ""
  {
    assert InItems([], text[..0]);
  }

  /** The first item takes some prefix and the others match what follows. */
  lemma HereCons(item: Item, items: seq<Item>, atEnd: bool, text: string)
    ensures DenotesHere([item] + items, atEnd, text) <==>
            exists k :: 0 <= k <= |text| && InItem(item, text[..k]) && DenotesHere(items, atEnd, text[k..])
  {
    var all := [item] + items;
    assert all[1..] == items;
    if DenotesHere(all, atEnd, text) {
      var m :| 0 <= m <= |text| && InItems(all, text[..m]) && (atEnd ==> m == |text|);
      var k :| 0 <= k <= m && InItem(item, text[..m][..k]) && InItems(items, text[..m][k..]);
      assert text[..m][..k] == text[..k];
      assert text[..m][k..] == text[k..][..m - k];
      assert DenotesHere(items, atEnd, text[k..]);
    }
    if k :| 0 <= k <= |text| && InItem(item, text[..k]) && DenotesHere(items, atEnd, text[k..]) {
      var m :| 0 <= m <= |text[k..]| && InItems(items, text[k..][..m]) && (atEnd ==> m == |text[k..]|);
      var w := text[..k + m];
      assert w[..k] == text[..k];
      assert w[k..] == text[k..][..m];
      assert InItem(all[0], w[..k]) && InItems(all[1..], w[k..]);
      assert InItems(all, w);
    }
  }

  lemma HereLit(c: char, items: seq<Item>, atEnd: bool, text: string)
    ensures DenotesHere([Lit(c)] + items, atEnd, text) <==>
            text != "" && Fits(c, text[0]) && DenotesHere(items, atEnd, text[1..])
  {
    HereCons(Lit(c), items, atEnd, text);
    if text != "" {
      assert InItem(Lit(c), text[..1]) <==> Fits(c, text[0]);
    }
  }

  lemma HereStar(c: char, items: seq<Item>, atEnd: bool, text: string)
    ensures DenotesHere([Star(c)] + items, atEnd, text) <==>
            exists k :: 0 <= k <= |text| && (forall i :: 0 <= i < k ==> Fits(c, text[i])) &&
                        DenotesHere(items, atEnd, text[k..])
  {
    HereCons(Star(c), items, atEnd, text);
    forall k | 0 <= k <= |text|
      ensures InItem(Star(c), text[..k]) <==> forall i :: 0 <= i < k ==> Fits(c, text[i])
    {
    }
  }

  // ---------------------------------------------------------------- the matcher

  /** matchhere: search for re at the beginning of text. */
  method MatchHere(re: string, text: string) returns (found: bool)
    ensures found <==> Here(re, text)
    decreases |re|, |text|, 0
  {
    var rest := ItemsOf(re);
    if re == "" {
      HereEmpty(text);
      return true;
    }
    if |re| >= 2 && re[1] == '*' {
      found := MatchStar(re[0], re[2..], text);
      return;
    }
    if re[0] == '$' && |re| == 1 {
      HereEmpty(text);
      return text == "";
    }
    HereLit(re[0], ItemsOf(re[1..]).items, rest.atEnd, text);
    if text != "" && (re[0] == '.' || re[0] == text[0]) {
      found := MatchHere(re[1..], text[1..]);
      return;
    }
    return false;
  }

  /** matchstar: search for c*re at the beginning of text. */
  method MatchStar(c: char, re: string, text: string) returns (found: bool)
    ensures found <==> DenotesHere([Star(c)] + ItemsOf(re).items, ItemsOf(re).atEnd, text)
    decreases |re|, |text|, 1
  {
    HereStar(c, ItemsOf(re).items, ItemsOf(re).atEnd, text);
    var at := 0;
    while true
      invariant 0 <= at <= |text|
      invariant forall i :: 0 <= i < at ==> Fits(c, text[i])
      invariant forall k :: 0 <= k < at ==> !Here(re, text[k..])
      decreases |text| - at
    {
      var here := MatchHere(re, text[at..]);
      if here {
        return true;
      }
      if at == |text| || !(text[at] == c || c == '.') {
        return false;
      }
      at := at + 1;
    }
  }

  /** match: does the pattern occur in the text? */
  method Match(re: string, text: string) returns (found: bool)
    ensures found <==> Denotes(RegexOf(re), text)
  {
    if re != "" && re[0] == '^' {
      found := MatchHere(re[1..], text);
      assert text[0..] == text;
      return;
    }
    ItemsUnanchored(re);
    var at := 0;
    while true
      invariant 0 <= at <= |text|
      invariant forall j :: 0 <= j < at ==> !Here(re, text[j..])
      decreases |text| - at
    {
      var here := MatchHere(re, text[at..]);
      if here {
        return true;
      }
      if at == |text| {
        return false;
      }
      at := at + 1;
    }
  }

  lemma {:induction false} ItemsUnanchored(re: string)
    ensures !ItemsOf(re).atStart
  {
    if |re| >= 2 && re[1] == '*' {
      ItemsUnanchored(re[2..]);
    } else if re != "" && re != "$" {
      ItemsUnanchored(re[1..]);
    }
  }

  // ---------------------------------------------------------------- patterns and their regexes

  function Pattern(items: seq<Item>, atEnd: bool): string {
    if items == [] then (if atEnd then "$" else "")
    else
      var rest := Pattern(items[1..], atEnd);
      match items[0]
      case Lit(c) => [c] + rest
      case Star(c) => [c, '*'] + rest
  }

  /** Nothing in the pattern is read as something else: no literal is followed by '*', and a last
      literal '$' would be an anchor. */
  ghost predicate Readable(items: seq<Item>, atEnd: bool) {
    && (forall i {:trigger items[i]} :: 0 < i < |items| && items[i - 1].Lit? ==> items[i].c != '*')
    && (items != [] && !atEnd ==> items[|items| - 1] != Lit('$'))
  }

  /** Nor is a first '^' an anchor. */
  ghost predicate Spellable(r: Regex) {
    Readable(r.items, r.atEnd) && (r.items != [] && !r.atStart ==> r.items[0].c != '^')
  }

  function Spelling(r: Regex): string {
    (if r.atStart then "^" else "") + Pattern(r.items, r.atEnd)
  }

  lemma PatternStarts(items: seq<Item>, atEnd: bool)
    ensures var p := Pattern(items, atEnd);
            if items == [] then p == (if atEnd then "$" else "") else p != "" && p[0] == items[0].c
  {
  }

  lemma ReadsStar(c: char, p: string)
    ensures ItemsOf([c, '*'] + p) == ItemsOf(p).(items := [Star(c)] + ItemsOf(p).items)
  {
    assert ([c, '*'] + p)[2..] == p;
  }

  lemma ReadsLit(c: char, p: string)
    requires (p != "" ==> p[0] != '*') && (p == "" ==> c != '$')
    ensures ItemsOf([c] + p) == ItemsOf(p).(items := [Lit(c)] + ItemsOf(p).items)
  {
    assert ([c] + p)[1..] == p;
  }

  lemma {:induction false} PatternReads(items: seq<Item>, atEnd: bool)
    requires Readable(items, atEnd)
    ensures ItemsOf(Pattern(items, atEnd)) == Regex(false, items, atEnd)
    decreases |items|
  {
    if items != [] {
      var rest := items[1..];
      PatternReads(rest, atEnd);
      PatternStarts(rest, atEnd);
      var p := Pattern(rest, atEnd);
      match items[0]
      case Star(c) =>
        ReadsStar(c, p);
        assert [Star(c)] + rest == items;
      case Lit(c) =>
        assert rest != [] ==> rest[0] == items[1];
        ReadsLit(c, p);
        assert [Lit(c)] + rest == items;
    }
  }

  lemma {:induction false} ItemsReadable(re: string)
    ensures var r := ItemsOf(re); Readable(r.items, r.atEnd) && (r.items != [] ==> re != "" && r.items[0].c == re[0])
    decreases |re|
  {
    hide Readable;
    if |re| >= 2 && re[1] == '*' {
      ItemsReadable(re[2..]);
      ReadableCons(Star(re[0]), ItemsOf(re[2..]).items, ItemsOf(re[2..]).atEnd);
    } else if re != "" && re != "$" {
      ItemsReadable(re[1..]);
      ReadableCons(Lit(re[0]), ItemsOf(re[1..]).items, ItemsOf(re[1..]).atEnd);
    } else {
      NoneReadable(ItemsOf(re).atEnd);
    }
  }

  lemma NoneReadable(atEnd: bool)
    ensures Readable([], atEnd)
  {}

  lemma ReadableCons(x: Item, items: seq<Item>, atEnd: bool)
    requires Readable(items, atEnd)
    requires items == [] && !atEnd ==> x != Lit('$')
    requires items != [] && x.Lit? ==> items[0].c != '*'
    ensures Readable([x] + items, atEnd)
  {
    var all := [x] + items;
    forall i {:trigger all[i]} | 0 < i < |all| && all[i - 1].Lit?
      ensures all[i].c != '*'
    {
      if i > 1 {
        assert items[i - 1] == all[i] && items[i - 2] == all[i - 1];
      }
    }
  }

  /** The spellable regular expressions are exactly the meanings of patterns; each is the meaning
      of its spelling, so Match decides all of them. */
  lemma SpellingReads(r: Regex)
    ensures Spellable(r) <==> exists re :: RegexOf(re) == r
    ensures Spellable(r) ==> RegexOf(Spelling(r)) == r
  {
    if Spellable(r) {
      PatternReads(r.items, r.atEnd);
      assert r.atStart ==> Spelling(r)[1..] == Pattern(r.items, r.atEnd);
      assert !r.atStart ==> Spelling(r) == Pattern(r.items, r.atEnd);
      assert RegexOf(Spelling(r)) == r;
    }
    forall re | RegexOf(re) == r ensures Spellable(r) {
      var anchored := re != "" && re[0] == '^';
      ItemsReadable(if anchored then re[1..] else re);
      ItemsUnanchored(re);
    }
  }
}
