/** Commands printed with parentheses, and the parser's return of the same command. */
module ShellPrint {
  import opened Shell

  predicate ValidWord(w: string) {
    w != "" && forall k :: 0 <= k < |w| ==> WordChar(w[k])
  }

  predicate Printable(c: Cmd) {
    match c
    case Exec(argv) => |argv| < MAXARGS && forall i :: 0 <= i < |argv| ==> ValidWord(argv[i])
    case Redir(cmd, op, file) => Printable(cmd) && ValidWord(file)
    case Pipe(left, right) => Printable(left) && Printable(right)
    case List(left, right) => Printable(left) && Printable(right)
    case Back(cmd) => Printable(cmd)
  }

  function Join(ws: seq<string>): string {
    if ws == [] then "" else if |ws| == 1 then ws[0] else ws[0] + " " + Join(ws[1..])
  }

  function OpText(op: Op): string {
    match op
    case Input => "<"
    case Output => ">"
    case Append => ">>"
  }

  function Paren(c: Cmd): string
    decreases c, 1
  {
    "(" + Print(c) + ")"
  }

  function Print(c: Cmd): string
    decreases c, 0
  {
    match c
    case Exec(argv) => Join(argv)
    case Redir(cmd, op, file) => Paren(cmd) + OpText(op) + file
    case Pipe(left, right) => Paren(left) + "|" + Paren(right)
    case List(left, right) => Paren(left) + ";" + Paren(right)
    case Back(cmd) => Paren(cmd) + "&"
  }

  /** The text p stands in the line at position i. */
  ghost predicate Occurs(s: string, i: nat, p: string) {
    i + |p| <= |s| && s[i..i + |p|] == p
  }

  lemma OccursSplit(s: string, i: nat, p: string, q: string)
    ensures Occurs(s, i, p + q) <==> Occurs(s, i, p) && Occurs(s, i + |p|, q)
  {
    if i + |p| + |q| <= |s| {
      assert s[i..i + |p| + |q|] == s[i..i + |p|] + s[i + |p|..i + |p| + |q|];
      if Occurs(s, i, p + q) {
        assert s[i..i + |p|] == (p + q)[..|p|] && s[i + |p|..i + |p| + |q|] == (p + q)[|p|..];
      }
    }
  }

  lemma OccursAt(s: string, i: nat, p: string, k: nat)
    requires Occurs(s, i, p) && k < |p|
    ensures s[i + k] == p[k]
  {
    assert s[i..i + |p|][k] == s[i + k];
  }

  /** A command ends at the end of the line or before a closing parenthesis. */
  predicate Stop(s: string, i: nat) {
    i == |s| || (i < |s| && s[i] == ')')
  }

  /** What the parser reports for a command from position i to k. */
  ghost predicate Reads(s: string, r: Result<Node>, k: nat, c: Cmd) {
    r.Ok? && r.pos == k && WordsOk(s, r.v) && Text(s, r.v) == c
  }

  lemma SymToken(s: string, i: nat)
    requires i < |s| && Symbol(s[i]) && s[i] != '>' && (i + 1 < |s| ==> !Ws(s[i + 1]))
    ensures Skip(s, i) == i && TokenFrom(s, i).next == i + 1
  {
  }

  lemma {:induction false} WordEndIs(s: string, i: nat, e: nat)
    requires i <= e <= |s| && (forall k :: i <= k < e ==> WordChar(s[k]))
      && (e < |s| ==> !WordChar(s[e]) && s[e] != '\0')
    ensures WordEnd(s, i) == e
    decreases e - i
  {
    if i < e {
      WordEndIs(s, i + 1, e);
    }
  }

  /** A word followed by a delimiter is one token. */
  lemma WordToken(s: string, i: nat, w: string)
    requires Occurs(s, i, w) && ValidWord(w) && (i + |w| < |s| ==> Ws(s[i + |w|]) || Symbol(s[i + |w|]))
    ensures Skip(s, i) == i < |s| && WordChar(s[i]) && TokenFrom(s, i).kind == Word && TokenFrom(s, i).q == i
      && TokenFrom(s, i).eq == i + |w|
    ensures TokenFrom(s, i).next == Skip(s, i + |w|) && IsWord(s, Span(i, i + |w|))
  {
    forall k | i <= k < i + |w|
      ensures WordChar(s[k])
    {
      OccursAt(s, i, w, k - i);
    }
    WordEndIs(s, i, i + |w|);
  }

  lemma NoRedirs(s: string, i: nat)
    requires i <= |s| && (i < |s| ==> !Ws(s[i]) && s[i] != '<' && s[i] != '>')
    ensures Skip(s, i) == i && Redirs(s, i) == Ok(i, [])
  {
  }

  /** The spans of the joined words that start at position i. */
  ghost function JoinSpans(i: nat, ws: seq<string>): (r: seq<Span>)
    ensures |r| == |ws|
    decreases |ws|
  {
    if ws == [] then [] else [Span(i, i + |ws[0]|)] + JoinSpans(i + |ws[0]| + 1, ws[1..])
  }

  lemma ArgsStop(s: string, i: nat, args: seq<Span>)
    requires Stop(s, i)
    ensures Args(s, i, args, []) == Ok(i, EXEC(args))
  {
    hide TokenFrom, Redirs, Stop;
    StopToken(s, i);
  }

  lemma ArgsStep(s: string, i: nat, args: seq<Span>, e: nat, next: nat)
    requires i < |s| && Skip(s, i) == i && WordChar(s[i]) && TokenFrom(s, i) == Token(Word, i, e, next)
      && |args| + 1 < MAXARGS
    requires next <= |s| && (next < |s| ==> !Ws(s[next]) && s[next] != '<' && s[next] != '>')
    ensures Args(s, i, args, []) == Args(s, next, args + [Span(i, e)], [])
  {
    hide TokenFrom, Redirs, Wrap, WordChar, Ws;
    WordNotSymbol(s[i]);
    NoRedirs(s, next);
    var none: seq<Redirect> := [];
    assert none + none == none;
  }

  lemma {:induction false} ArgsRead(s: string, i: nat, ws: seq<string>, args: seq<Span>)
    requires Occurs(s, i, Join(ws)) && Stop(s, i + |Join(ws)|) && |args| + |ws| < MAXARGS
      && forall j :: 0 <= j < |ws| ==> ValidWord(ws[j])
    ensures Args(s, i, args, []) == Ok(i + |Join(ws)|, EXEC(args + JoinSpans(i, ws)))
    decreases |ws|
  {
    hide *;
    if ws == [] {
      NoneJoined(i, args);
      ArgsStop(s, i, args);
    } else {
      var rest, args' := ws[1..], args + [Span(i, i + |ws[0]|)];
      var next := FirstWord(s, i, ws);
      ArgsStep(s, i, args, i + |ws[0]|, next);
      ArgsRead(s, next, rest, args');
      JoinedMore(i, ws, args);
    }
  }

  lemma NoneJoined(i: nat, args: seq<Span>)
    ensures Join([]) == "" && args + JoinSpans(i, []) == args
  {
  }

  lemma JoinedMore(i: nat, ws: seq<string>, args: seq<Span>)
    requires ws != []
    ensures var next := if |ws| == 1 then i + |ws[0]| else i + |ws[0]| + 1;
      args + [Span(i, i + |ws[0]|)] + JoinSpans(next, ws[1..]) == args + JoinSpans(i, ws)
  {
  }

  lemma WordNotSymbol(c: char)
    requires WordChar(c)
    ensures c !in {'|', ')', '&', ';', '(', '<', '>'} && !Ws(c)
  {
  }

  lemma StopToken(s: string, i: nat)
    requires Stop(s, i)
    ensures i <= |s| && Skip(s, i) == i && (i < |s| ==> Sees(s, i, {'|', ')', '&', ';'}))
      && (i == |s| ==> TokenFrom(s, i) == Token(End, i, i, i))
    ensures !Sees(s, i, {'('}) && !Sees(s, i, {'|'}) && !Sees(s, i, {'&'}) && !Sees(s, i, {';'})
      && Redirs(s, i) == Ok(i, [])
  {
  }

  /** The first of some joined words, and where the token after it starts. */
  lemma FirstWord(s: string, i: nat, ws: seq<string>) returns (next: nat)
    requires ws != [] && Occurs(s, i, Join(ws)) && Stop(s, i + |Join(ws)|)
      && forall j :: 0 <= j < |ws| ==> ValidWord(ws[j])
    ensures i < |s| && Skip(s, i) == i && WordChar(s[i]) && TokenFrom(s, i) == Token(Word, i, i + |ws[0]|, next)
      && IsWord(s, Span(i, i + |ws[0]|))
    ensures next == if |ws| == 1 then i + |ws[0]| else i + |ws[0]| + 1
    ensures Occurs(s, next, Join(ws[1..])) && next + |Join(ws[1..])| == i + |Join(ws)|
      && (next < |s| ==> !Ws(s[next]) && s[next] != '<' && s[next] != '>')
  {
    hide TokenFrom, WordEnd, Skip, Occurs, ValidWord, IsWord, Ws, Symbol, WordChar;
    var w := ws[0];
    var e := i + |w|;
    if |ws| == 1 {
      next := e;
      StopHere(s, e);
      WordToken(s, i, w);
      OccursNone(s, e);
    } else {
      next := e + 1;
      OccursSplit(s, i, w + " ", Join(ws[1..]));
      OccursSplit(s, i, w, " ");
      WordSpace(s, e, Join(ws[1..]), ws[1..]);
      WordToken(s, i, w);
    }
  }

  lemma OccursNone(s: string, i: nat)
    requires i <= |s|
    ensures Occurs(s, i, "")
  {
  }

  lemma StopHere(s: string, i: nat)
    requires Stop(s, i)
    ensures i <= |s| && Skip(s, i) == i && (i < |s| ==> s[i] == ')' && Symbol(s[i]) && !Ws(s[i]))
  {
  }

  /** A space and then a word. */
  lemma WordSpace(s: string, e: nat, p: string, ws: seq<string>)
    requires Occurs(s, e, " ") && Occurs(s, e + 1, p) && ws != [] && ValidWord(ws[0]) && p == Join(ws)
    ensures e + 1 < |s| && Ws(s[e]) && !Ws(s[e + 1]) && s[e + 1] != '<' && s[e + 1] != '>' && Skip(s, e) == e + 1
  {
    OccursAt(s, e, " ", 0);
    FirstChar(ws);
    OccursAt(s, e + 1, p, 0);
  }

  lemma FirstChar(ws: seq<string>)
    requires ws != [] && ValidWord(ws[0])
    ensures Join(ws) != "" && WordChar(Join(ws)[0])
  {
  }

  ghost predicate SpanIs(s: string, w: Span, word: string) {
    IsWord(s, w) && s[w.q..w.eq] == word
  }

  lemma {:induction false} SpansRead(s: string, i: nat, ws: seq<string>)
    requires Occurs(s, i, Join(ws)) && Stop(s, i + |Join(ws)|) && forall j :: 0 <= j < |ws| ==> ValidWord(ws[j])
    ensures forall j :: 0 <= j < |ws| ==> SpanIs(s, JoinSpans(i, ws)[j], ws[j])
    decreases |ws|
  {
    hide TokenFrom, Stop, Skip, ValidWord, IsWord, WordChar, Ws;
    if ws != [] {
      var next := FirstWord(s, i, ws);
      SpansRead(s, next, ws[1..]);
      OccursFirst(s, i, ws);
      forall j | 0 <= j < |ws|
        ensures SpanIs(s, JoinSpans(i, ws)[j], ws[j])
      {
        if j > 0 {
          assert SpanIs(s, JoinSpans(next, ws[1..])[j - 1], ws[1..][j - 1]);
          assert |ws| > 1 && JoinSpans(i, ws)[j] == JoinSpans(next, ws[1..])[j - 1];
        }
      }
    }
  }

  lemma OccursFirst(s: string, i: nat, ws: seq<string>)
    requires ws != [] && Occurs(s, i, Join(ws))
    ensures Occurs(s, i, ws[0])
  {
    if |ws| > 1 {
      OccursSplit(s, i, ws[0] + " ", Join(ws[1..]));
      OccursSplit(s, i, ws[0], " ");
    }
  }

  lemma TextExec(s: string, spans: seq<Span>, ws: seq<string>)
    requires |spans| == |ws| < MAXARGS && forall j :: 0 <= j < |ws| ==> SpanIs(s, spans[j], ws[j])
    ensures WordsOk(s, EXEC(spans)) && Text(s, EXEC(spans)) == Exec(ws)
  {
    hide IsWord;
    forall j | 0 <= j < |spans|
      ensures IsWord(s, spans[j])
    {
      assert SpanIs(s, spans[j], ws[j]);
    }
    var c := Text(s, EXEC(spans));
    assert c.argv == ws;
  }

  /** Words alone are read by parseexec. */
  lemma ExecReads(s: string, i: nat, ws: seq<string>)
    requires Occurs(s, i, Join(ws)) && Stop(s, i + |Join(ws)|) && Printable(Exec(ws))
    ensures Reads(s, ExecFrom(s, i), i + |Join(ws)|, Exec(ws))
  {
    hide Args, Redirs, ValidWord, Join, JoinSpans, Occurs, TokenFrom, Text;
    ArgsRead(s, i, ws, []);
    SpansRead(s, i, ws);
    var spans := JoinSpans(i, ws);
    assert [] + spans == spans;
    TextExec(s, spans, ws);
    NoParen(s, i, ws);
  }

  lemma NoParen(s: string, i: nat, ws: seq<string>)
    requires Occurs(s, i, Join(ws)) && Stop(s, i + |Join(ws)|) && Printable(Exec(ws))
    ensures i <= |s| && !Sees(s, i, {'('}) && Skip(s, i) == i && Redirs(s, i) == Ok(i, [])
  {
    hide Redirs, WordChar, ValidWord, Ws;
    if ws == [] {
      StopToken(s, i);
    } else {
      var next := FirstWord(s, i, ws);
      WordNotSymbol(s[i]);
      NoRedirs(s, i);
    }
  }

  /** The position after a stop or another symbol reached by a part of the parser that does not consume it. */
  lemma PipeStops(s: string, i: nat, k: nat, c: Cmd)
    requires i <= k <= |s| && Reads(s, ExecFrom(s, i), k, c) && (k < |s| ==> !Ws(s[k]) && s[k] != '|')
    ensures Reads(s, PipeFrom(s, i), k, c)
  {
    hide ExecFrom, Text, WordsOk;
  }

  lemma LineStops(s: string, i: nat, k: nat, c: Cmd)
    requires i <= k <= |s| && Reads(s, PipeFrom(s, i), k, c) && Stop(s, k)
    ensures Reads(s, LineFrom(s, i), k, c)
  {
    hide PipeFrom, Text, WordsOk, TokenFrom;
    StopToken(s, k);
  }

  /** A command in parentheses, read by parseblock together with the redirections that follow. */
  lemma BlockReads(s: string, i: nat, c: Cmd, k: nat)
    requires k == i + |Paren(c)| && Occurs(s, i, Paren(c)) && Reads(s, LineFrom(s, i + 1), k - 1, c)
      && (k < |s| ==> !Ws(s[k]))
    requires i + 1 < |s| && !Ws(s[i + 1])
    ensures i < k <= |s| && (Redirs(s, k) == Ok(k, []) ==> Reads(s, ExecFrom(s, i), k, c))
    ensures Redirs(s, k).Ok? ==> ExecFrom(s, i) == Ok(Redirs(s, k).pos, Wrap(LineFrom(s, i + 1).v, Redirs(s, k).v))
  {
    hide LineFrom, Text, WordsOk, TokenFrom, Redirs;
    var p := Paren(c);
    OccursAt(s, i, p, 0);
    OccursAt(s, i, p, |p| - 1);
    assert s[i] == '(' && s[k - 1] == ')';
    SymToken(s, i);
    SymToken(s, k - 1);
  }

  lemma PrintFirst(c: Cmd)
    requires Printable(c)
    ensures Print(c) != "" ==> !Ws(Print(c)[0])
  {
    match c
    case Exec(argv) =>
      if argv != [] {
        FirstChar(argv);
      }
    case _ =>
  }

  /** The inside of a parenthesised command stands between its parentheses, before a stop. */
  lemma ParenInside(s: string, i: nat, c: Cmd)
    requires Occurs(s, i, Paren(c)) && Printable(c)
    ensures Occurs(s, i + 1, Print(c)) && Stop(s, i + 1 + |Print(c)|) && i + 1 < |s| && !Ws(s[i + 1])
  {
    hide Printable;
    var p := Print(c);
    OccursSplit(s, i, "(" + p, ")");
    OccursSplit(s, i, "(", p);
    OccursAt(s, i + 1 + |p|, ")", 0);
    PrintFirst(c);
    if p != "" {
      OccursAt(s, i + 1, p, 0);
    }
  }

  /** parseline reads a printed command back, up to the stop after it. */
  lemma {:induction false} LineReads(s: string, i: nat, c: Cmd)
    requires Occurs(s, i, Print(c)) && Stop(s, i + |Print(c)|) && Printable(c)
    ensures Reads(s, LineFrom(s, i), i + |Print(c)|, c)
    decreases c, 0
  {
    hide LineFrom, PipeFrom, ExecFrom, Occurs, Stop, Text, WordsOk;
    match c
    case Exec(argv) =>
      ExecReads(s, i, argv);
      StopHere(s, i + |Print(c)|);
      PipeStops(s, i, i + |Print(c)|, c);
      LineStops(s, i, i + |Print(c)|, c);
    case Redir(cmd, op, file) => RedirReads(s, i, cmd, op, file);
    case Pipe(left, right) => PipeReads(s, i, left, right);
    case List(left, right) => ListReads(s, i, left, right);
    case Back(cmd) => BackReads(s, i, cmd);
  }

  /** parseexec reads a command in parentheses that no redirection follows. */
  lemma {:induction false} ParenReads(s: string, i: nat, c: Cmd)
    requires Occurs(s, i, Paren(c)) && Printable(c)
    requires var k := i + |Paren(c)|; k < |s| ==> !Ws(s[k]) && s[k] != '<' && s[k] != '>'
    ensures Reads(s, ExecFrom(s, i), i + |Paren(c)|, c)
    decreases c, 1
  {
    hide LineFrom, ExecFrom, Occurs, Stop, Text, WordsOk, Redirs, Print;
    var k := i + |Paren(c)|;
    ParenInside(s, i, c);
    LineReads(s, i + 1, c);
    assert k <= |s| by { OccursFits(s, i, Paren(c)); }
    NoRedirs(s, k);
    BlockReads(s, i, c, k);
  }

  lemma OccursFits(s: string, i: nat, p: string)
    requires Occurs(s, i, p)
    ensures i + |p| <= |s|
  {
  }

  lemma {:induction false} PipeReads(s: string, i: nat, left: Cmd, right: Cmd)
    requires Occurs(s, i, Print(Pipe(left, right))) && Stop(s, i + |Print(Pipe(left, right))|) && Printable(left)
      && Printable(right)
    ensures Reads(s, LineFrom(s, i), i + |Print(Pipe(left, right))|, Pipe(left, right))
    decreases Pipe(left, right), 0, 0
  {
    hide LineFrom, ExecFrom, Occurs, Stop, Text, WordsOk, Redirs, Paren, Printable, TokenFrom, Skip, Sees;
    var k, end := i + |Paren(left)|, i + |Print(Pipe(left, right))|;
    Joined(s, i, left, "|", right);
    ParenReads(s, i, left);
    StopHere(s, end);
    ParenReads(s, k + 1, right);
    PipeStops(s, k + 1, end, right);
    PipeSym(s, k);
    PipeJoin(s, i, k, end, left, right);
    LineStops(s, i, end, Pipe(left, right));
  }

  /** Two commands in parentheses around a symbol. */
  lemma Joined(s: string, i: nat, left: Cmd, sym: string, right: Cmd)
    requires Occurs(s, i, Paren(left) + sym + Paren(right)) && |sym| == 1
    ensures var k := i + |Paren(left)|;
      && Occurs(s, i, Paren(left)) && Occurs(s, k + 1, Paren(right))
      && k + 1 + |Paren(right)| == i + |Paren(left) + sym + Paren(right)|
      && k + 1 < |s| && s[k] == sym[0] && s[k + 1] == '('
  {
    hide Print;
    OccursSplit(s, i, Paren(left) + sym, Paren(right));
    OccursSplit(s, i, Paren(left), sym);
    OccursAt(s, i + |Paren(left)|, sym, 0);
    OccursAt(s, i + |Paren(left)| + 1, Paren(right), 0);
  }

  lemma PipeSym(s: string, k: nat)
    requires k + 1 < |s| && s[k] in {'|', ';', '&'} && s[k + 1] == '('
    ensures Skip(s, k) == k && TokenFrom(s, k).next == k + 1 && Sees(s, k, {s[k]})
    ensures forall c: char :: c != s[k] ==> !Sees(s, k, {c})
  {
    SymToken(s, k);
  }

  lemma PipeJoin(s: string, i: nat, k: nat, end: nat, left: Cmd, right: Cmd)
    requires i <= k < |s| && Reads(s, ExecFrom(s, i), k, left) && Sees(s, k, {'|'}) && Skip(s, k) == k
      && TokenFrom(s, k).next == k + 1
    requires Reads(s, PipeFrom(s, k + 1), end, right)
    ensures Reads(s, PipeFrom(s, i), end, Pipe(left, right))
  {
    hide ExecFrom, TokenFrom, Sees, Skip;
    var l, r := ExecFrom(s, i).v, PipeFrom(s, k + 1).v;
    assert PipeFrom(s, i) == Ok(end, PIPE(l, r));
  }

  lemma {:induction false} ListReads(s: string, i: nat, left: Cmd, right: Cmd)
    requires Occurs(s, i, Print(List(left, right))) && Stop(s, i + |Print(List(left, right))|) && Printable(left)
      && Printable(right)
    ensures Reads(s, LineFrom(s, i), i + |Print(List(left, right))|, List(left, right))
    decreases List(left, right), 0, 0
  {
    hide LineFrom, PipeFrom, ExecFrom, Occurs, Stop, Text, WordsOk, Redirs, Paren, Printable, TokenFrom, Skip, Sees;
    var k, end := i + |Paren(left)|, i + |Print(List(left, right))|;
    Joined(s, i, left, ";", right);
    ParenReads(s, i, left);
    PipeStops(s, i, k, left);
    StopHere(s, end);
    ParenReads(s, k + 1, right);
    PipeStops(s, k + 1, end, right);
    LineStops(s, k + 1, end, right);
    PipeSym(s, k);
    ListJoin(s, i, k, end, left, right);
  }

  lemma ListJoin(s: string, i: nat, k: nat, end: nat, left: Cmd, right: Cmd)
    requires i <= k < |s| && Reads(s, PipeFrom(s, i), k, left) && !Sees(s, k, {'&'}) && Sees(s, k, {';'})
    requires Skip(s, k) == k && TokenFrom(s, k).next == k + 1 && Reads(s, LineFrom(s, k + 1), end, right)
    ensures Reads(s, LineFrom(s, i), end, List(left, right))
  {
    hide PipeFrom, TokenFrom, Sees, Skip;
    var l, r := PipeFrom(s, i).v, LineFrom(s, k + 1).v;
    assert LineFrom(s, i) == LineRest(s, k, l) == Ok(end, LIST(l, r));
  }

  lemma {:induction false} BackReads(s: string, i: nat, cmd: Cmd)
    requires Occurs(s, i, Print(Back(cmd))) && Stop(s, i + |Print(Back(cmd))|) && Printable(cmd)
    ensures Reads(s, LineFrom(s, i), i + |Print(Back(cmd))|, Back(cmd))
    decreases Back(cmd), 0, 0
  {
    hide LineFrom, PipeFrom, ExecFrom, Occurs, Stop, Text, WordsOk, Redirs, Paren, Printable, TokenFrom, Skip, Sees;
    var k := i + |Paren(cmd)|;
    OccursSplit(s, i, Paren(cmd), "&");
    OccursAt(s, k, "&", 0);
    OccursFits(s, k, "&");
    ParenReads(s, i, cmd);
    PipeStops(s, i, k, cmd);
    BackJoin(s, i, k, cmd);
  }

  lemma BackJoin(s: string, i: nat, k: nat, cmd: Cmd)
    requires i <= k < |s| && s[k] == '&' && Stop(s, k + 1) && Reads(s, PipeFrom(s, i), k, cmd)
    ensures Reads(s, LineFrom(s, i), k + 1, Back(cmd))
  {
    hide PipeFrom, LineFrom, TokenFrom, Text, WordsOk;
    var c := PipeFrom(s, i).v;
    SymToken(s, k);
    StopToken(s, k + 1);
    assert LineRest(s, k + 1, BACK(c)) == Ok(k + 1, BACK(c));
    assert LineRest(s, k, c) == LineRest(s, k + 1, BACK(c));
    LineIs(s, i);
    TextBack(s, c);
  }

  lemma LineIs(s: string, i: nat)
    requires i <= |s| && PipeFrom(s, i).Ok?
    ensures LineFrom(s, i) == LineRest(s, PipeFrom(s, i).pos, PipeFrom(s, i).v)
  {
  }

  lemma TextBack(s: string, c: Node)
    requires WordsOk(s, c)
    ensures WordsOk(s, BACK(c)) && Text(s, BACK(c)) == Back(Text(s, c))
  {
  }

  /** An operator and its file are read by parseredirs. */
  lemma RedirsRead(s: string, k: nat, op: Op, file: string)
    requires Occurs(s, k, OpText(op) + file) && ValidWord(file) && Stop(s, k + |OpText(op) + file|)
    ensures var w := Span(k + |OpText(op)|, k + |OpText(op) + file|);
      Redirs(s, k) == Ok(w.eq, [Redirect(op, w)]) && SpanIs(s, w, file) && k < |s| && !Ws(s[k])
  {
    hide Stop, IsWord, WordChar, Redirs, TokenFrom, Skip, Sees, OpText, Ws, ValidWord;
    var f, end := k + |OpText(op)|, k + |OpText(op) + file|;
    OccursSplit(s, k, OpText(op), file);
    StopHere(s, end);
    WordToken(s, f, file);
    OpToken(s, k, op);
    StopToken(s, end);
    RedirsStep(s, k, op, f, end);
  }

  lemma RedirsStep(s: string, k: nat, op: Op, f: nat, end: nat)
    requires k <= f <= end <= |s| && Sees(s, k, {'<', '>'}) && Skip(s, k) == k && TokenFrom(s, k).next == f
      && OpOf(TokenFrom(s, k).kind) == op
    requires TokenFrom(s, f).kind == Word && TokenFrom(s, f).q == f && TokenFrom(s, f).eq == end
      && TokenFrom(s, f).next == end
    requires Redirs(s, end) == Ok(end, [])
    ensures Redirs(s, k) == Ok(end, [Redirect(op, Span(f, end))])
  {
    hide TokenFrom, Skip, Sees, OpOf;
    var none: seq<Redirect> := [];
    assert [Redirect(op, Span(f, end))] + none == [Redirect(op, Span(f, end))];
  }

  lemma OpToken(s: string, k: nat, op: Op)
    requires Occurs(s, k, OpText(op)) && k + |OpText(op)| < |s| && WordChar(s[k + |OpText(op)|])
    ensures k < |s| && !Ws(s[k]) && Sees(s, k, {'<', '>'}) && Skip(s, k) == k
    ensures TokenFrom(s, k).next == k + |OpText(op)| && OpOf(TokenFrom(s, k).kind) == op
  {
    OccursAt(s, k, OpText(op), 0);
    if op == Append {
      OccursAt(s, k, OpText(op), 1);
    }
  }

  lemma {:induction false} RedirReads(s: string, i: nat, cmd: Cmd, op: Op, file: string)
    requires Occurs(s, i, Print(Redir(cmd, op, file))) && Stop(s, i + |Print(Redir(cmd, op, file))|) && Printable(cmd)
      && ValidWord(file)
    ensures Reads(s, LineFrom(s, i), i + |Print(Redir(cmd, op, file))|, Redir(cmd, op, file))
    decreases Redir(cmd, op, file), 0, 0
  {
    hide LineFrom, PipeFrom, ExecFrom, Occurs, Stop, Text, WordsOk, Redirs, Paren, Printable, TokenFrom, Skip, Sees,
      IsWord, OpText;
    var k, end := i + |Paren(cmd)|, i + |Print(Redir(cmd, op, file))|;
    assert Print(Redir(cmd, op, file)) == Paren(cmd) + (OpText(op) + file);
    OccursSplit(s, i, Paren(cmd), OpText(op) + file);
    ParenInside(s, i, cmd);
    LineReads(s, i + 1, cmd);
    RedirsRead(s, k, op, file);
    assert |Paren(cmd)| == |Print(cmd)| + 2 by { ParenSize(cmd); }
    BlockReads(s, i, cmd, k);
    TextRedir(s, LineFrom(s, i + 1).v, Redirs(s, k).v[0], file);
    StopHere(s, end);
    PipeStops(s, i, end, Redir(cmd, op, file));
    LineStops(s, i, end, Redir(cmd, op, file));
  }

  lemma ParenSize(c: Cmd)
    ensures |Paren(c)| == |Print(c)| + 2
  {
  }

  lemma TextRedir(s: string, c: Node, r: Redirect, file: string)
    requires WordsOk(s, c) && SpanIs(s, r.file, file)
    ensures WordsOk(s, Wrap(c, [r])) && Text(s, Wrap(c, [r])) == Redir(Text(s, c), r.op, file)
  {
    assert Wrap(c, [r]) == REDIR(Wrap(c, []), r);
  }

  /** Printing a command and parsing it gives the command back. */
  lemma RoundTrip(c: Cmd)
    requires Printable(c)
    ensures var s := Print(c); var r := ParseResult(s); r.Ok? && WordsOk(s, r.v) && Text(s, r.v) == c
  {
    hide LineFrom, Print, Text, WordsOk;
    var s := Print(c);
    assert s[0..|s|] == s;
    LineReads(s, 0, c);
    StopHere(s, |s|);
  }
}
