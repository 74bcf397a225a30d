/** The shell's grammar as derivations over tokens, apart from the parser; the parser accepts exactly the lines that
    have a derivation, and returns its command. */
module ShellGrammar {
  import opened Collections
  import opened Shell

  datatype Lexeme = SymLex(c: char) | AppendLex | WordLex(w: Span)

  /** The tokens of a line from position i on. */
  ghost function LexFrom(s: string, i: nat): seq<Lexeme>
    requires i <= |s|
    decreases |s| - i
  {
    var t := TokenFrom(s, i);
    match t.kind
    case End => []
    case Sym(c) => [SymLex(c)] + LexFrom(s, t.next)
    case AppendSym => [AppendLex] + LexFrom(s, t.next)
    case Word => [WordLex(Span(t.q, t.eq))] + LexFrom(s, t.next)
  }

  /** line: a pipeline, any number of '&', and perhaps ';' and a line. pipeline: a command, and perhaps '|' and a
      pipeline. command: a line in parentheses with redirections, or words with redirections among them. */
  datatype LineTree = LineTree(first: PipeTree, backs: nat, rest: Option<LineTree>)
  datatype PipeTree = PipeTree(first: ExecTree, rest: Option<PipeTree>)
  datatype ExecTree = Block(line: LineTree, rs: seq<Redirect>) | Simple(first: seq<Redirect>, args: seq<Arg>)
  datatype Arg = Arg(w: Span, rs: seq<Redirect>)

  /** The tokens that a derivation derives. */
  function OpLex(op: Op): Lexeme {
    match op
    case Input => SymLex('<')
    case Output => SymLex('>')
    case Append => AppendLex
  }

  ghost function RedirsYield(rs: seq<Redirect>): seq<Lexeme> {
    if rs == [] then [] else [OpLex(rs[0].op), WordLex(rs[0].file)] + RedirsYield(rs[1..])
  }

  ghost function ArgsYield(args: seq<Arg>): seq<Lexeme> {
    if args == [] then [] else [WordLex(args[0].w)] + RedirsYield(args[0].rs) + ArgsYield(args[1..])
  }

  ghost function ExecYield(e: ExecTree): seq<Lexeme>
    decreases e, 0
  {
    match e
    case Block(line, rs) => [SymLex('(')] + LineYield(line) + [SymLex(')')] + RedirsYield(rs)
    case Simple(first, args) => RedirsYield(first) + ArgsYield(args)
  }

  ghost function PipeYield(p: PipeTree): seq<Lexeme>
    decreases p, 1
  {
    ExecYield(p.first) + match p.rest case None => [] case Some(r) => [SymLex('|')] + PipeYield(r)
  }

  ghost function Marks(n: nat): seq<Lexeme> {
    seq(n, _ => SymLex('&'))
  }

  ghost function LineYield(l: LineTree): seq<Lexeme>
    decreases l, 2
  {
    PipeYield(l.first) + Marks(l.backs) + match l.rest case None => [] case Some(r) => [SymLex(';')] + LineYield(r)
  }

  /** The command that it denotes. */
  function ArgWords(args: seq<Arg>): seq<Span> {
    if args == [] then [] else [args[0].w] + ArgWords(args[1..])
  }

  function ArgRedirs(args: seq<Arg>): seq<Redirect> {
    if args == [] then [] else args[0].rs + ArgRedirs(args[1..])
  }

  function ExecNode(e: ExecTree): Node {
    match e
    case Block(line, rs) => Wrap(LineNode(line), rs)
    case Simple(first, args) => Wrap(EXEC(ArgWords(args)), first + ArgRedirs(args))
  }

  function PipeNode(p: PipeTree): Node {
    match p.rest
    case None => ExecNode(p.first)
    case Some(r) => PIPE(ExecNode(p.first), PipeNode(r))
  }

  function Backs(c: Node, n: nat): Node
    decreases n
  {
    if n == 0 then c else Backs(BACK(c), n - 1)
  }

  function LineNode(l: LineTree): Node {
    var c := Backs(PipeNode(l.first), l.backs);
    match l.rest
    case None => c
    case Some(r) => LIST(c, LineNode(r))
  }

  /** Every command has fewer than MAXARGS words. */
  predicate ExecFits(e: ExecTree) {
    match e
    case Block(line, _) => LineFits(line)
    case Simple(_, args) => |args| < MAXARGS
  }

  predicate PipeFits(p: PipeTree) {
    ExecFits(p.first) && (p.rest.Some? ==> PipeFits(p.rest.value))
  }

  predicate LineFits(l: LineTree) {
    PipeFits(l.first) && (l.rest.Some? ==> LineFits(l.rest.value))
  }

  /** s has the derivation d. */
  ghost predicate Derives(s: string, d: LineTree) {
    LineFits(d) && LineYield(d) == LexFrom(s, 0)
  }

  lemma LexSkip(s: string, i: nat)
    requires i <= |s|
    ensures LexFrom(s, Skip(s, i)) == LexFrom(s, i)
  {
    SeesSkip(s, i, {});
  }

  /** peek looks at the first token. */
  predicate Starts(ts: seq<Lexeme>, toks: set<char>) {
    ts != [] && match ts[0] case SymLex(c) => c in toks case AppendLex => '>' in toks case WordLex(_) => false
  }

  lemma SeesFirst(s: string, i: nat, toks: set<char>)
    requires i <= |s| && forall c :: c in toks ==> Symbol(c)
    ensures Sees(s, i, toks) <==> Starts(LexFrom(s, i), toks)
  {
    hide WordEnd;
  }

  /** gettoken takes the first token. */
  lemma FirstToken(s: string, i: nat)
    requires i <= |s|
    ensures var t, ts := TokenFrom(s, i), LexFrom(s, i);
      && (t.kind == End <==> ts == []) && (t.kind == End ==> LexFrom(s, t.next) == [])
      && (t.kind != End ==> ts[1..] == LexFrom(s, t.next) && t.next > i)
      && (t.kind.Word? ==> ts[0] == WordLex(Span(t.q, t.eq)))
      && (t.kind.Sym? ==> ts[0] == SymLex(t.kind.c)) && (t.kind.AppendSym? ==> ts[0] == AppendLex)
  {
    hide WordEnd;
  }

  /** What the parser has read stands before what is left. */
  ghost predicate Read(s: string, i: nat, pos: nat, ts: seq<Lexeme>) {
    i <= pos <= |s| && LexFrom(s, i) == ts + LexFrom(s, pos)
  }

  lemma ReadThen(s: string, i: nat, j: nat, k: nat, a: seq<Lexeme>, b: seq<Lexeme>)
    requires Read(s, i, j, a) && Read(s, j, k, b)
    ensures Read(s, i, k, a + b)
  {
  }

  /** One of the symbols, seen by peek and taken by gettoken. */
  lemma ReadSymbol(s: string, i: nat, c: char)
    requires i <= |s| && Symbol(c) && c != '>' && Sees(s, i, {c})
    ensures Read(s, i, TokenFrom(s, Skip(s, i)).next, [SymLex(c)])
  {
    hide TokenFrom, Skip, LexFrom;
    LexSkip(s, i);
    SeesFirst(s, i, {c});
    FirstToken(s, Skip(s, i));
    assert LexFrom(s, i) == [SymLex(c)] + LexFrom(s, i)[1..];
  }

  lemma {:induction false} SoundRedirs(s: string, i: nat)
    requires i <= |s| && Redirs(s, i).Ok?
    ensures Read(s, i, Redirs(s, i).pos, RedirsYield(Redirs(s, i).v))
    decreases |s| - i
  {
    hide TokenFrom, Skip, LexFrom;
    var p := Skip(s, i);
    LexSkip(s, i);
    SeesSkip(s, i, {'<', '>'});
    SeesFirst(s, i, {'<', '>'});
    if Sees(s, i, {'<', '>'}) {
      var t := TokenFrom(s, p);
      var f := TokenFrom(s, t.next);
      FirstToken(s, p);
      FirstToken(s, t.next);
      SoundRedirs(s, f.next);
      var r := Redirect(OpOf(t.kind), Span(f.q, f.eq));
      var rest := Redirs(s, f.next);
      assert ([r] + rest.v)[1..] == rest.v;
      assert LexFrom(s, i) == [OpLex(r.op), WordLex(r.file)] + LexFrom(s, f.next);
    }
  }

  lemma {:induction false} SoundArgs(s: string, i: nat, args: seq<Span>, rs: seq<Redirect>) returns (more: seq<Arg>)
    requires i <= |s| && Args(s, i, args, rs).Ok? && |args| < MAXARGS
    ensures Read(s, i, Args(s, i, args, rs).pos, ArgsYield(more)) && |args| + |more| < MAXARGS
    ensures Args(s, i, args, rs).v == Wrap(EXEC(args + ArgWords(more)), rs + ArgRedirs(more))
    decreases |s| - i
  {
    hide TokenFrom, Skip, LexFrom, Redirs, Wrap;
    var p := Skip(s, i);
    LexSkip(s, i);
    var t := TokenFrom(s, p);
    FirstToken(s, p);
    if Sees(s, i, {'|', ')', '&', ';'}) || t.kind == End {
      more := [];
      assert args + [] == args && rs + [] == rs;
    } else {
      var r := Redirs(s, t.next);
      SoundRedirs(s, t.next);
      var w := Span(t.q, t.eq);
      var rest := SoundArgs(s, r.pos, args + [w], rs + r.v);
      more := [Arg(w, r.v)] + rest;
      assert more[1..] == rest;
      assert LexFrom(s, i) == [WordLex(w)] + LexFrom(s, t.next);
      assert Read(s, i, t.next, [WordLex(w)]);
      hide Read;
      ReadThen(s, i, t.next, r.pos, [WordLex(w)], RedirsYield(r.v));
      ReadThen(s, i, r.pos, Args(s, i, args, rs).pos, [WordLex(w)] + RedirsYield(r.v), ArgsYield(rest));
      assert args + [w] + ArgWords(rest) == args + ArgWords(more) && rs + r.v + ArgRedirs(rest) == rs + ArgRedirs(more);
    }
  }

  lemma {:induction false} SoundExec(s: string, i: nat) returns (e: ExecTree)
    requires i <= |s| && ExecFrom(s, i).Ok?
    ensures Read(s, i, ExecFrom(s, i).pos, ExecYield(e)) && ExecFits(e) && ExecNode(e) == ExecFrom(s, i).v
    decreases |s| - i, 1
  {
    hide TokenFrom, Skip, LexFrom, Redirs, Args, BlockFrom;
    var p := Skip(s, i);
    LexSkip(s, i);
    SeesSkip(s, i, {'('});
    if Sees(s, i, {'('}) {
      e := SoundBlock(s, p);
    } else {
      var first := Redirs(s, p);
      SoundRedirs(s, p);
      var args := SoundArgs(s, first.pos, [], first.v);
      e := Simple(first.v, args);
      assert [] + ArgWords(args) == ArgWords(args);
    }
  }

  lemma {:induction false} SoundBlock(s: string, i: nat) returns (e: ExecTree)
    requires i <= |s| && Sees(s, i, {'('}) && BlockFrom(s, i).Ok?
    ensures Read(s, i, BlockFrom(s, i).pos, ExecYield(e)) && ExecFits(e) && ExecNode(e) == BlockFrom(s, i).v
    decreases |s| - i, 0
  {
    hide TokenFrom, Skip, LexFrom, Redirs, LineFrom;
    var j := TokenFrom(s, Skip(s, i)).next;
    ReadSymbol(s, i, '(');
    var line := LineFrom(s, j);
    var l := SoundLine(s, j);
    var k := TokenFrom(s, Skip(s, line.pos)).next;
    ReadSymbol(s, line.pos, ')');
    var rs := Redirs(s, k);
    SoundRedirs(s, k);
    e := Block(l, rs.v);
    hide Read;
    ReadThen(s, i, j, line.pos, [SymLex('(')], LineYield(l));
    ReadThen(s, i, line.pos, k, [SymLex('(')] + LineYield(l), [SymLex(')')]);
    ReadThen(s, i, k, rs.pos, [SymLex('(')] + LineYield(l) + [SymLex(')')], RedirsYield(rs.v));
  }

  lemma {:induction false} SoundPipe(s: string, i: nat) returns (p: PipeTree)
    requires i <= |s| && PipeFrom(s, i).Ok?
    ensures Read(s, i, PipeFrom(s, i).pos, PipeYield(p)) && PipeFits(p) && PipeNode(p) == PipeFrom(s, i).v
    decreases |s| - i, 2
  {
    hide TokenFrom, Skip, LexFrom, ExecFrom;
    var left := ExecFrom(s, i);
    var e := SoundExec(s, i);
    LexSkip(s, left.pos);
    SeesFirst(s, left.pos, {'|'});
    if Sees(s, left.pos, {'|'}) {
      var t := TokenFrom(s, Skip(s, left.pos));
      FirstToken(s, Skip(s, left.pos));
      var r := SoundPipe(s, t.next);
      p := PipeTree(e, Some(r));
      assert LexFrom(s, left.pos) == [SymLex('|')] + LexFrom(s, t.next);
    } else {
      p := PipeTree(e, None);
    }
  }

  lemma {:induction false} SoundLine(s: string, i: nat) returns (l: LineTree)
    requires i <= |s| && LineFrom(s, i).Ok?
    ensures Read(s, i, LineFrom(s, i).pos, LineYield(l)) && LineFits(l) && LineNode(l) == LineFrom(s, i).v
    decreases |s| - i, 4
  {
    hide LexFrom, PipeFrom, LineRest;
    var c := PipeFrom(s, i);
    var p := SoundPipe(s, i);
    var n, rest := SoundRest(s, c.pos, c.v);
    l := LineTree(p, n, rest);
  }

  /** What follows the first pipeline of a line. */
  ghost function RestYield(n: nat, rest: Option<LineTree>): seq<Lexeme> {
    Marks(n) + match rest case None => [] case Some(r) => [SymLex(';')] + LineYield(r)
  }

  function RestNode(c: Node, n: nat, rest: Option<LineTree>): Node {
    match rest case None => Backs(c, n) case Some(r) => LIST(Backs(c, n), LineNode(r))
  }

  lemma {:induction false} SoundRest(s: string, i: nat, c: Node) returns (n: nat, rest: Option<LineTree>)
    requires i <= |s| && LineRest(s, i, c).Ok?
    ensures Read(s, i, LineRest(s, i, c).pos, RestYield(n, rest)) && (rest.Some? ==> LineFits(rest.value))
    ensures RestNode(c, n, rest) == LineRest(s, i, c).v
    decreases |s| - i, 3
  {
    hide TokenFrom, Skip, LexFrom, LineFrom, LineYield, LineNode;
    var p := Skip(s, i);
    LexSkip(s, i);
    SeesSkip(s, i, {'&'});
    SeesFirst(s, i, {'&'});
    SeesSkip(s, p, {';'});
    SeesFirst(s, p, {';'});
    FirstToken(s, p);
    var next := TokenFrom(s, p).next;
    if Sees(s, i, {'&'}) {
      var m;
      m, rest := SoundRest(s, next, BACK(c));
      n := m + 1;
      assert Marks(n) == [SymLex('&')] + Marks(m);
      assert LexFrom(s, i) == [SymLex('&')] + LexFrom(s, next);
    } else if Sees(s, p, {';'}) {
      var r := SoundLine(s, next);
      n, rest := 0, Some(r);
      assert LexFrom(s, i) == [SymLex(';')] + LexFrom(s, next);
    } else {
      n, rest := 0, None;
      LexSkip(s, p);
    }
  }

  /** The parser's answer r for tokens that are followed by ts. */
  ghost predicate Parsed<T(!new)>(s: string, r: Result<T>, v: T, ts: seq<Lexeme>) {
    r.Ok? && r.pos <= |s| && r.v == v && LexFrom(s, r.pos) == ts
  }

  lemma FirstOf(x: Lexeme, ts: seq<Lexeme>, rest: seq<Lexeme>, all: seq<Lexeme>)
    requires all == [x] + ts + rest
    ensures all != [] && all[0] == x && all[1..] == ts + rest
  {
  }

  lemma {:induction false} CompleteRedirs(s: string, i: nat, rs: seq<Redirect>, ts: seq<Lexeme>)
    requires i <= |s| && LexFrom(s, i) == RedirsYield(rs) + ts && !Starts(ts, {'<', '>'})
    ensures Parsed(s, Redirs(s, i), rs, ts)
    decreases |s| - i
  {
    hide TokenFrom, Skip, LexFrom;
    var p := Skip(s, i);
    LexSkip(s, i);
    SeesSkip(s, i, {'<', '>'});
    SeesFirst(s, i, {'<', '>'});
    if rs != [] {
      var t := TokenFrom(s, p);
      FirstToken(s, p);
      FirstToken(s, t.next);
      var f := TokenFrom(s, t.next);
      assert LexFrom(s, p) == [OpLex(rs[0].op)] + ([WordLex(rs[0].file)] + RedirsYield(rs[1..])) + ts;
      FirstOf(OpLex(rs[0].op), [WordLex(rs[0].file)] + RedirsYield(rs[1..]), ts, LexFrom(s, p));
      assert LexFrom(s, t.next) == [WordLex(rs[0].file)] + RedirsYield(rs[1..]) + ts;
      FirstOf(WordLex(rs[0].file), RedirsYield(rs[1..]), ts, LexFrom(s, t.next));
      CompleteRedirs(s, f.next, rs[1..], ts);
      assert [rs[0]] + rs[1..] == rs;
    }
  }

  /** What may follow a command, a pipeline and a line. */
  predicate AfterExec(ts: seq<Lexeme>) {
    ts == [] || Starts(ts, {'|', ')', '&', ';'})
  }

  predicate AfterPipe(ts: seq<Lexeme>) {
    ts == [] || Starts(ts, {')', '&', ';'})
  }

  predicate AfterLine(ts: seq<Lexeme>) {
    ts == [] || Starts(ts, {')'})
  }

  /** Words and what may follow a command are no redirections. */
  lemma NoRedirNext(args: seq<Arg>, ts: seq<Lexeme>)
    requires AfterExec(ts)
    ensures !Starts(ArgsYield(args) + ts, {'<', '>'})
    ensures args != [] ==> !Starts(ArgsYield(args) + ts, {'|', ')', '&', ';'})
  {
    if args == [] {
      assert ArgsYield(args) + ts == ts;
    } else {
      assert (ArgsYield(args) + ts)[0] == WordLex(args[0].w);
    }
  }

  lemma {:induction false} CompleteArgs(s: string, i: nat, more: seq<Arg>, args: seq<Span>, rs: seq<Redirect>,
                                        ts: seq<Lexeme>)
    requires i <= |s| && LexFrom(s, i) == ArgsYield(more) + ts && AfterExec(ts) && |args| + |more| < MAXARGS
    ensures Parsed(s, Args(s, i, args, rs), Wrap(EXEC(args + ArgWords(more)), rs + ArgRedirs(more)), ts)
    decreases |s| - i
  {
    hide TokenFrom, Skip, LexFrom, Redirs, Wrap, Starts;
    var p := Skip(s, i);
    LexSkip(s, i);
    SeesFirst(s, i, {'|', ')', '&', ';'});
    FirstToken(s, p);
    NoRedirNext(more, ts);
    if more == [] {
      assert ArgsYield(more) + ts == ts && args + [] == args && rs + [] == rs;
    } else {
      var t := TokenFrom(s, p);
      var a := more[0];
      FirstOf(WordLex(a.w), RedirsYield(a.rs) + ArgsYield(more[1..]), ts, LexFrom(s, p));
      assert LexFrom(s, t.next) == RedirsYield(a.rs) + (ArgsYield(more[1..]) + ts);
      NoRedirNext(more[1..], ts);
      CompleteRedirs(s, t.next, a.rs, ArgsYield(more[1..]) + ts);
      CompleteArgs(s, Redirs(s, t.next).pos, more[1..], args + [a.w], rs + a.rs, ts);
      assert args + [a.w] + ArgWords(more[1..]) == args + ArgWords(more);
      assert rs + a.rs + ArgRedirs(more[1..]) == rs + ArgRedirs(more);
    }
  }

  lemma NoParenNext(first: seq<Redirect>, args: seq<Arg>, ts: seq<Lexeme>)
    requires AfterExec(ts)
    ensures !Starts(RedirsYield(first) + ArgsYield(args) + ts, {'('})
  {
    var all := RedirsYield(first) + ArgsYield(args) + ts;
    if first != [] {
      assert all[0] == OpLex(first[0].op);
    } else if args != [] {
      assert all[0] == WordLex(args[0].w);
    } else {
      assert all == ts;
    }
  }

  /** Taking a symbol that stands first. */
  lemma TakeSymbol(s: string, i: nat, c: char, ts: seq<Lexeme>)
    requires i <= |s| && Symbol(c) && c != '>' && LexFrom(s, i) == [SymLex(c)] + ts
    ensures Sees(s, i, {c}) && LexFrom(s, TokenFrom(s, Skip(s, i)).next) == ts
  {
    hide TokenFrom, Skip, LexFrom;
    LexSkip(s, i);
    SeesFirst(s, i, {c});
    FirstToken(s, Skip(s, i));
    assert LexFrom(s, i)[1..] == ts;
  }

  lemma {:induction false} CompleteExec(s: string, i: nat, e: ExecTree, ts: seq<Lexeme>)
    requires i <= |s| && LexFrom(s, i) == ExecYield(e) + ts && AfterExec(ts) && ExecFits(e)
    ensures Parsed(s, ExecFrom(s, i), ExecNode(e), ts)
    decreases e, 0
  {
    hide TokenFrom, Skip, LexFrom, Redirs, Args, BlockFrom, Starts, Wrap;
    LexSkip(s, i);
    SeesFirst(s, i, {'('});
    SeesSkip(s, i, {'('});
    match e
    case Block(line, rs) =>
      CompleteBlock(s, Skip(s, i), line, rs, ts);
      TakeSymbol(s, i, '(', LineYield(line) + [SymLex(')')] + RedirsYield(rs) + ts);
    case Simple(first, args) =>
      NoParenNext(first, args, ts);
      NoRedirNext(args, ts);
      assert LexFrom(s, Skip(s, i)) == RedirsYield(first) + (ArgsYield(args) + ts);
      CompleteRedirs(s, Skip(s, i), first, ArgsYield(args) + ts);
      CompleteArgs(s, Redirs(s, Skip(s, i)).pos, args, [], first, ts);
      assert [] + ArgWords(args) == ArgWords(args);
  }

  lemma {:induction false} CompleteBlock(s: string, i: nat, line: LineTree, rs: seq<Redirect>, ts: seq<Lexeme>)
    requires i <= |s| && LexFrom(s, i) == ExecYield(Block(line, rs)) + ts && AfterExec(ts) && LineFits(line)
    ensures Sees(s, i, {'('}) && Parsed(s, BlockFrom(s, i), Wrap(LineNode(line), rs), ts)
    decreases line, 3
  {
    hide TokenFrom, Skip, LexFrom, Redirs, LineFrom, Wrap, Sees;
    var rest := RedirsYield(rs) + ts;
    assert LexFrom(s, i) == [SymLex('(')] + (LineYield(line) + ([SymLex(')')] + rest));
    TakeSymbol(s, i, '(', LineYield(line) + ([SymLex(')')] + rest));
    var j := TokenFrom(s, Skip(s, i)).next;
    CompleteLine(s, j, line, [SymLex(')')] + rest);
    var l := LineFrom(s, j);
    TakeSymbol(s, l.pos, ')', rest);
    CompleteRedirs(s, TokenFrom(s, Skip(s, l.pos)).next, rs, ts);
  }

  lemma {:induction false} CompletePipe(s: string, i: nat, p: PipeTree, ts: seq<Lexeme>)
    requires i <= |s| && LexFrom(s, i) == PipeYield(p) + ts && AfterPipe(ts) && PipeFits(p)
    ensures Parsed(s, PipeFrom(s, i), PipeNode(p), ts)
    decreases p, 1
  {
    hide TokenFrom, Skip, LexFrom, ExecFrom, ExecYield;
    match p.rest
    case None =>
      assert LexFrom(s, i) == ExecYield(p.first) + ts;
      CompleteExec(s, i, p.first, ts);
      var left := ExecFrom(s, i);
      LexSkip(s, left.pos);
      SeesFirst(s, left.pos, {'|'});
    case Some(r) =>
      var rest := PipeYield(r) + ts;
      assert LexFrom(s, i) == ExecYield(p.first) + ([SymLex('|')] + rest);
      CompleteExec(s, i, p.first, [SymLex('|')] + rest);
      var left := ExecFrom(s, i);
      TakeSymbol(s, left.pos, '|', rest);
      CompletePipe(s, TokenFrom(s, Skip(s, left.pos)).next, r, ts);
  }

  lemma {:induction false} CompleteLine(s: string, i: nat, l: LineTree, ts: seq<Lexeme>)
    requires i <= |s| && LexFrom(s, i) == LineYield(l) + ts && AfterLine(ts) && LineFits(l)
    ensures Parsed(s, LineFrom(s, i), LineNode(l), ts)
    decreases l, 2
  {
    hide LexFrom, PipeFrom, LineRest, PipeYield;
    var rest := RestYield(l.backs, l.rest) + ts;
    assert LexFrom(s, i) == PipeYield(l.first) + rest;
    RestAfter(l.backs, l.rest, ts);
    CompletePipe(s, i, l.first, rest);
    var c := PipeFrom(s, i);
    CompleteRest(s, c.pos, c.v, l.backs, l.rest, ts);
  }

  lemma RestAfter(n: nat, rest: Option<LineTree>, ts: seq<Lexeme>)
    requires AfterLine(ts)
    ensures AfterPipe(RestYield(n, rest) + ts)
  {
    hide LineYield;
    if n > 0 {
      assert (RestYield(n, rest) + ts)[0] == SymLex('&');
    } else if rest.Some? {
      assert (RestYield(n, rest) + ts)[0] == SymLex(';');
    } else {
      assert RestYield(n, rest) + ts == ts;
    }
  }

  lemma {:induction false} CompleteRest(s: string, i: nat, c: Node, n: nat, rest: Option<LineTree>, ts: seq<Lexeme>)
    requires i <= |s| && LexFrom(s, i) == RestYield(n, rest) + ts && AfterLine(ts)
      && (rest.Some? ==> LineFits(rest.value))
    ensures Parsed(s, LineRest(s, i, c), RestNode(c, n, rest), ts)
    decreases rest, 1, n
  {
    hide TokenFrom, Skip, LexFrom, LineFrom, LineYield, LineNode;
    var p := Skip(s, i);
    LexSkip(s, i);
    SeesSkip(s, i, {'&'});
    SeesFirst(s, i, {'&'});
    SeesSkip(s, p, {';'});
    SeesFirst(s, p, {';'});
    if n > 0 {
      assert RestYield(n, rest) == [SymLex('&')] + RestYield(n - 1, rest);
      TakeSymbol(s, i, '&', RestYield(n - 1, rest) + ts);
      CompleteRest(s, TokenFrom(s, p).next, BACK(c), n - 1, rest, ts);
    } else if rest.Some? {
      assert LexFrom(s, i) == [SymLex(';')] + (LineYield(rest.value) + ts);
      TakeSymbol(s, i, ';', LineYield(rest.value) + ts);
      CompleteLine(s, TokenFrom(s, p).next, rest.value, ts);
    } else {
      assert RestYield(n, rest) + ts == ts;
      LexSkip(s, p);
    }
  }

  lemma EndOfLine(s: string, i: nat)
    requires i <= |s| && LexFrom(s, i) == []
    ensures Skip(s, i) == |s|
  {
  }

  /** parsecmd returns a command only for a line with a derivation, and returns the command of that derivation. */
  lemma Sound(s: string) returns (d: LineTree)
    requires ParseResult(s).Ok?
    ensures Derives(s, d) && ParseResult(s).v == LineNode(d)
  {
    hide LineFrom, LineYield, LineNode, TokenFrom;
    var c := LineFrom(s, 0);
    d := SoundLine(s, 0);
    LexSkip(s, c.pos);
    FirstToken(s, |s|);
    assert LineYield(d) + [] == LineYield(d);
  }

  /** A line with a derivation is parsed, to the command of that derivation. */
  lemma Complete(s: string, d: LineTree)
    requires Derives(s, d)
    ensures ParseResult(s) == Ok(|s|, LineNode(d))
  {
    hide LineFrom, LineYield, LineNode, TokenFrom;
    assert LineYield(d) + [] == LineYield(d);
    CompleteLine(s, 0, d, []);
    EndOfLine(s, LineFrom(s, 0).pos);
  }

  /** So the grammar is unambiguous: all derivations of a line denote one command. */
  lemma Unambiguous(s: string, d: LineTree, d': LineTree)
    requires Derives(s, d) && Derives(s, d')
    ensures LineNode(d) == LineNode(d')
  {
    hide Derives, LineNode, ParseResult;
    Complete(s, d);
    Complete(s, d');
  }

  lemma PipeOne(a: ExecTree)
    ensures PipeYield(PipeTree(a, None)) == ExecYield(a) && PipeNode(PipeTree(a, None)) == ExecNode(a)
  {
    hide ExecYield, ExecNode;
    assert ExecYield(a) + [] == ExecYield(a);
  }

  /** A line of one pipeline in the background, and a line of two pipelines. */
  lemma BackLine(p: PipeTree)
    ensures LineYield(LineTree(p, 1, None)) == PipeYield(p) + [SymLex('&')]
    ensures LineNode(LineTree(p, 1, None)) == BACK(PipeNode(p))
  {
    hide PipeYield, PipeNode;
    assert Marks(1) == [SymLex('&')];
    assert Backs(PipeNode(p), 1) == BACK(PipeNode(p));
  }

  lemma ListLine(p: PipeTree, l: LineTree)
    ensures LineYield(LineTree(p, 0, Some(l))) == PipeYield(p) + ([SymLex(';')] + LineYield(l))
    ensures LineNode(LineTree(p, 0, Some(l))) == LIST(PipeNode(p), LineNode(l))
  {
    hide PipeYield, PipeNode;
    assert Marks(0) == [];
  }

  /** Without parentheses: '|' binds tighter than '&', and '&' than ';'. */
  lemma Precedence(s: string, a: ExecTree, b: ExecTree, c: ExecTree)
    requires ExecFits(a) && ExecFits(b) && ExecFits(c)
    requires LexFrom(s, 0) ==
      (ExecYield(a) + ([SymLex('|')] + ExecYield(b))) + ([SymLex(';')] + (ExecYield(c) + [SymLex('&')]))
    ensures ParseResult(s) == Ok(|s|, LIST(PIPE(ExecNode(a), ExecNode(b)), BACK(ExecNode(c))))
  {
    hide ExecYield, ExecNode, LexFrom, ParseResult, LineYield, LineNode, ExecFits;
    var pb, pc := PipeTree(b, None), PipeTree(c, None);
    var pa, last := PipeTree(a, Some(pb)), LineTree(pc, 1, None);
    PipeOne(b);
    PipeOne(c);
    BackLine(pc);
    ListLine(pa, last);
    assert LineFits(last) && PipeFits(pa) && PipeFits(pb);
    hide PipeFits;
    Complete(s, LineTree(pa, 0, Some(last)));
  }
}
