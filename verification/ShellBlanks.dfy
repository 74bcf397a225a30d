/** The characters of a command line, and words with any blanks around them. */
module ShellBlanks {
  import opened Shell
  import opened ShellPrint

  /** The shell's white space: blank, tab, carriage return, newline and vertical tab. */
  predicate Blank(c: char) {
    c == ' ' || c == '\t' || c == '\r' || c == '\n' || c == '\U{000B}'
  }

  predicate Blanks(g: string) {
    forall k :: 0 <= k < |g| ==> Blank(g[k])
  }

  /** What ends a word besides white space and the end of the line. */
  predicate Special(c: char) {
    c == '<' || c == '|' || c == '>' || c == '&' || c == ';' || c == '(' || c == ')'
  }

  predicate Plain(w: string) {
    w != "" && forall k :: 0 <= k < |w| ==> w[k] != '\0' && !Blank(w[k]) && !Special(w[k])
  }

  lemma Classes(c: char)
    ensures (Blank(c) <==> Ws(c)) && (Special(c) <==> Symbol(c))
  {
  }

  lemma PlainValid(w: string)
    requires Plain(w)
    ensures ValidWord(w)
  {
    forall k | 0 <= k < |w|
      ensures WordChar(w[k])
    {
      Classes(w[k]);
    }
  }

  /** Words, each followed by its blanks. */
  function Spread(ws: seq<string>, gs: seq<string>): string
    requires |gs| == |ws|
  {
    if ws == [] then "" else ws[0] + gs[0] + Spread(ws[1..], gs[1..])
  }

  ghost predicate Spreads(ws: seq<string>, gs: seq<string>) {
    && |gs| == |ws|
    && forall i :: 0 <= i < |ws| ==> Plain(ws[i]) && gs[i] != "" && Blanks(gs[i])
  }

  /** The spans of the words that start at position i. */
  ghost function SpreadSpans(i: nat, ws: seq<string>, gs: seq<string>): (r: seq<Span>)
    requires |gs| == |ws|
    ensures |r| == |ws|
    decreases |ws|
  {
    if ws == [] then [] else [Span(i, i + |ws[0]|)] + SpreadSpans(i + |ws[0]| + |gs[0]|, ws[1..], gs[1..])
  }

  lemma {:induction false} SkipTo(s: string, i: nat, j: nat)
    requires i <= j <= |s| && (forall k :: i <= k < j ==> Ws(s[k])) && (j < |s| ==> !Ws(s[j]))
    ensures Skip(s, i) == j
    decreases j - i
  {
    if i < j {
      SkipTo(s, i + 1, j);
    }
  }

  /** Blanks up to the next word or the end of the line are skipped. */
  lemma SkipBlanks(s: string, i: nat, g: string, ws: seq<string>, gs: seq<string>)
    requires Occurs(s, i, g) && Blanks(g) && Spreads(ws, gs)
    requires Occurs(s, i + |g|, Spread(ws, gs)) && i + |g| + |Spread(ws, gs)| == |s|
    ensures Skip(s, i) == i + |g|
    ensures i + |g| < |s| ==> WordChar(s[i + |g|])
    ensures g != "" ==> Ws(s[i])
  {
    forall k | i <= k < i + |g|
      ensures Ws(s[k])
    {
      OccursAt(s, i, g, k - i);
      Classes(s[k]);
    }
    if ws != [] {
      PlainValid(ws[0]);
      OccursAt(s, i + |g|, Spread(ws, gs), 0);
      assert Spread(ws, gs)[0] == ws[0][0];
    }
    SkipTo(s, i, i + |g|);
  }

  /** The first word and what follows its blanks. */
  lemma SpreadFirst(s: string, i: nat, ws: seq<string>, gs: seq<string>)
    requires ws != [] && Spreads(ws, gs) && Occurs(s, i, Spread(ws, gs)) && i + |Spread(ws, gs)| == |s|
    ensures var e, next := i + |ws[0]|, i + |ws[0]| + |gs[0]|;
      && i < |s| && Skip(s, i) == i && WordChar(s[i]) && TokenFrom(s, i) == Token(Word, i, e, next)
      && SpanIs(s, Span(i, e), ws[0]) && next <= |s| && (next < |s| ==> WordChar(s[next]))
      && Spreads(ws[1..], gs[1..]) && Occurs(s, next, Spread(ws[1..], gs[1..]))
      && next + |Spread(ws[1..], gs[1..])| == |s|
  {
    hide TokenFrom, Skip, Occurs, ValidWord, IsWord, WordChar, Plain, Blanks;
    var w, g, rest := ws[0], gs[0], Spread(ws[1..], gs[1..]);
    OccursSplit(s, i, w + g, rest);
    OccursSplit(s, i, w, g);
    PlainValid(w);
    SkipBlanks(s, i + |w|, g, ws[1..], gs[1..]);
    WordToken(s, i, w);
    OccursIs(s, i, w);
  }

  lemma OccursIs(s: string, i: nat, w: string)
    requires Occurs(s, i, w)
    ensures i + |w| <= |s| && s[i..i + |w|] == w
  {
  }

  lemma NoneSpread(s: string, i: nat, gs: seq<string>, args: seq<Span>)
    requires gs == [] && i + |Spread([], gs)| == |s|
    ensures i == |s| && Stop(s, i) && args + SpreadSpans(i, [], gs) == args
  {
  }

  lemma SpansMore(i: nat, ws: seq<string>, gs: seq<string>, args: seq<Span>)
    requires |gs| == |ws| > 0
    ensures args + [Span(i, i + |ws[0]|)] + SpreadSpans(i + |ws[0]| + |gs[0]|, ws[1..], gs[1..]) ==
      args + SpreadSpans(i, ws, gs)
  {
  }

  lemma {:induction false} SpreadArgs(s: string, i: nat, ws: seq<string>, gs: seq<string>, args: seq<Span>)
    requires |gs| == |ws| && Spreads(ws, gs) && Occurs(s, i, Spread(ws, gs)) && i + |Spread(ws, gs)| == |s|
      && |args| + |ws| < MAXARGS
    ensures Args(s, i, args, []) == Ok(|s|, EXEC(args + SpreadSpans(i, ws, gs)))
    decreases |ws|
  {
    hide *;
    if ws == [] {
      NoneSpread(s, i, gs, args);
      ArgsStop(s, i, args);
    } else {
      var next, args' := i + |ws[0]| + |gs[0]|, args + [Span(i, i + |ws[0]|)];
      SpreadFirst(s, i, ws, gs);
      if next < |s| {
        WordNotSymbol(s[next]);
      }
      ArgsStep(s, i, args, i + |ws[0]|, next);
      SpreadArgs(s, next, ws[1..], gs[1..], args');
      SpansMore(i, ws, gs, args);
    }
  }

  lemma {:induction false} SpreadRead(s: string, i: nat, ws: seq<string>, gs: seq<string>)
    requires |gs| == |ws| && Spreads(ws, gs) && Occurs(s, i, Spread(ws, gs)) && i + |Spread(ws, gs)| == |s|
    ensures forall j :: 0 <= j < |ws| ==> SpanIs(s, SpreadSpans(i, ws, gs)[j], ws[j])
    decreases |ws|
  {
    hide TokenFrom, Skip, Occurs, SpanIs, Spreads;
    if ws != [] {
      SpreadFirst(s, i, ws, gs);
      SpreadRead(s, i + |ws[0]| + |gs[0]|, ws[1..], gs[1..]);
    }
  }

  /** parseexec on words with any blanks before, between and after them. */
  lemma SpreadExec(s: string, i: nat, ws: seq<string>, gs: seq<string>)
    requires |gs| == |ws| && Spreads(ws, gs) && Occurs(s, i, Spread(ws, gs)) && i + |Spread(ws, gs)| == |s|
    requires |ws| < MAXARGS && Skip(s, 0) == i && (i < |s| ==> WordChar(s[i]))
    ensures Reads(s, ExecFrom(s, 0), |s|, Exec(ws))
  {
    hide Args, TokenFrom, Skip, Spreads, Spread, SpanIs, Text, Occurs, Redirs, WordChar, Ws;
    SpreadArgs(s, i, ws, gs, []);
    SpreadRead(s, i, ws, gs);
    var spans := SpreadSpans(i, ws, gs);
    assert [] + spans == spans;
    TextExec(s, spans, ws);
    if i < |s| {
      WordNotSymbol(s[i]);
    }
    NoRedirs(s, i);
  }

  /** Words with any blanks before, between and after them are the same command. */
  lemma AnyBlanks(g: string, ws: seq<string>, gs: seq<string>)
    requires |gs| == |ws| < MAXARGS && Blanks(g) && Spreads(ws, gs)
    ensures var s := g + Spread(ws, gs); var r := ParseResult(s);
      r.Ok? && WordsOk(s, r.v) && Text(s, r.v) == Exec(ws)
  {
    hide Spreads, Spread, Text, Blanks, LineFrom, PipeFrom, ExecFrom, WordsOk, WordChar;
    var s, i := g + Spread(ws, gs), |g|;
    assert s[0..|g|] == g && s[i..|s|] == Spread(ws, gs);
    SkipBlanks(s, 0, g, ws, gs);
    SpreadExec(s, i, ws, gs);
    PipeStops(s, 0, |s|, Exec(ws));
    LineStops(s, 0, |s|, Exec(ws));
    StopHere(s, |s|);
  }
}
