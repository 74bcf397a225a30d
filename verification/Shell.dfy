/** The shell's parser. A command line is a string without NUL; a pointer into it is an index, with a NUL read at its
    end. */
module Shell {
  const MAXARGS := 10

  predicate Ws(c: char) {
    c in {' ', '\t', '\r', '\n', '\U{000B}'}
  }

  predicate Symbol(c: char) {
    c in {'<', '|', '>', '&', ';', '(', ')'}
  }

  predicate WordChar(c: char) {
    !Ws(c) && !Symbol(c) && c != '\0'
  }

  /** A stretch of the line, from its first character to the one after its last. */
  datatype Span = Span(q: nat, eq: nat)

  datatype Op = Input | Output | Append
  datatype Redirect = Redirect(op: Op, file: Span)

  /** A parsed command, its words as stretches of the line; and a command with its words. */
  datatype Node =
    | EXEC(args: seq<Span>)
    | REDIR(cmd: Node, r: Redirect)
    | PIPE(left: Node, right: Node)
    | LIST(left: Node, right: Node)
    | BACK(cmd: Node)
  datatype Cmd =
    | Exec(argv: seq<string>)
    | Redir(cmd: Cmd, op: Op, file: string)
    | Pipe(left: Cmd, right: Cmd)
    | List(left: Cmd, right: Cmd)
    | Back(cmd: Cmd)

  datatype Error = MissingFile | MissingParen | SyntaxError | TooManyArgs | Leftovers
  datatype Result<T> = Ok(pos: nat, v: T) | Err(e: Error)

  /** The first position from i on that is not white space, and the first that ends a word. */
  function Skip(s: string, i: nat): (r: nat)
    requires i <= |s|
    ensures i <= r <= |s| && (r < |s| ==> !Ws(s[r])) && (forall k :: i <= k < r ==> Ws(s[k]))
    decreases |s| - i
  {
    if i < |s| && Ws(s[i]) then Skip(s, i + 1) else i
  }

  function WordEnd(s: string, i: nat): (r: nat)
    requires i <= |s|
    ensures i <= r <= |s| && (r < |s| ==> Ws(s[r]) || Symbol(s[r]))
      && (forall k :: i <= k < r ==> !Ws(s[k]) && !Symbol(s[k]))
    decreases |s| - i
  {
    if i < |s| && !Ws(s[i]) && !Symbol(s[i]) then WordEnd(s, i + 1) else i
  }

  datatype Kind = End | Sym(c: char) | AppendSym | Word
  datatype Token = Token(kind: Kind, q: nat, eq: nat, next: nat)

  function TokenAt(s: string, q: nat): (r: (Kind, nat))
    requires q <= |s| && (q < |s| ==> !Ws(s[q]))
    ensures q <= r.1 <= |s| && (r.0 != End ==> q < r.1)
  {
    if q == |s| then (End, q)
    else if s[q] == '>' then
      if q + 1 < |s| && s[q + 1] == '>' then (AppendSym, q + 2) else (Sym('>'), q + 1)
    else if Symbol(s[q]) then (Sym(s[q]), q + 1)
    else (Word, WordEnd(s, q))
  }

  /** gettoken's result from position i. */
  function TokenFrom(s: string, i: nat): (t: Token)
    requires i <= |s|
    ensures i <= t.q <= t.eq <= t.next <= |s|
    ensures t.kind != End ==> t.q < t.eq
  {
    var q := Skip(s, i);
    var (kind, eq) := TokenAt(s, q);
    Token(kind, q, eq, Skip(s, eq))
  }

  /** peek's answer; it also moves the pointer over white space. */
  predicate Sees(s: string, i: nat, toks: set<char>)
    requires i <= |s|
  {
    Skip(s, i) < |s| && s[Skip(s, i)] in toks
  }

  method GetToken(s: string, i: nat) returns (t: Token)
    requires i <= |s|
    ensures t == TokenFrom(s, i)
  {
    var p := SkipWs(s, i);
    var q := p;
    var kind;
    if p == |s| {
      kind := End;
    } else if s[p] in {'|', '(', ')', ';', '&', '<'} {
      kind := Sym(s[p]);
      p := p + 1;
    } else if s[p] == '>' {
      kind := Sym('>');
      p := p + 1;
      if p < |s| && s[p] == '>' {
        kind := AppendSym;
        p := p + 1;
      }
    } else {
      kind := Word;
      while p < |s| && !Ws(s[p]) && !Symbol(s[p])
        invariant q <= p <= |s| && WordEnd(s, p) == WordEnd(s, q)
      {
        p := p + 1;
      }
    }
    var eq := p;
    p := SkipWs(s, p);
    t := Token(kind, q, eq, p);
  }

  method SkipWs(s: string, i: nat) returns (p: nat)
    requires i <= |s|
    ensures p == Skip(s, i)
  {
    p := i;
    while p < |s| && Ws(s[p])
      invariant i <= p <= |s| && Skip(s, p) == Skip(s, i)
    {
      p := p + 1;
    }
  }

  method Peek(s: string, i: nat, toks: set<char>) returns (sees: bool, p: nat)
    requires i <= |s|
    ensures p == Skip(s, i) && sees == Sees(s, i, toks)
  {
    p := SkipWs(s, i);
    sees := p < |s| && s[p] in toks;
  }

  /** A stretch of word characters with a delimiter or the end of the line after it. */
  ghost predicate IsWord(s: string, w: Span) {
    w.q < w.eq <= |s| && (forall k :: w.q <= k < w.eq ==> !Ws(s[k]) && !Symbol(s[k]))
      && (w.eq < |s| ==> Ws(s[w.eq]) || Symbol(s[w.eq]))
  }

  ghost predicate WordsOk(s: string, c: Node) {
    match c
    case EXEC(args) => |args| < MAXARGS && forall i :: 0 <= i < |args| ==> IsWord(s, args[i])
    case REDIR(cmd, r) => WordsOk(s, cmd) && IsWord(s, r.file)
    case PIPE(left, right) => WordsOk(s, left) && WordsOk(s, right)
    case LIST(left, right) => WordsOk(s, left) && WordsOk(s, right)
    case BACK(cmd) => WordsOk(s, cmd)
  }

  ghost predicate FilesOk(s: string, rs: seq<Redirect>) {
    forall i :: 0 <= i < |rs| ==> IsWord(s, rs[i].file)
  }

  /** A command inside its redirections, the last one outermost. */
  function Wrap(c: Node, rs: seq<Redirect>): Node {
    if rs == [] then c else REDIR(Wrap(c, rs[..|rs| - 1]), rs[|rs| - 1])
  }

  lemma {:induction false} WrapOk(s: string, c: Node, rs: seq<Redirect>)
    requires WordsOk(s, c) && FilesOk(s, rs)
    ensures WordsOk(s, Wrap(c, rs))
  {
    if rs != [] {
      WrapOk(s, c, rs[..|rs| - 1]);
    }
  }

  function OpOf(kind: Kind): Op {
    if kind == Sym('<') then Input else if kind == AppendSym then Append else Output
  }

  /** parseredirs: the redirections from position i on. */
  function Redirs(s: string, i: nat): (r: Result<seq<Redirect>>)
    requires i <= |s|
    ensures r.Ok? ==> i <= r.pos <= |s|
    decreases |s| - i
  {
    if !Sees(s, i, {'<', '>'}) then Ok(Skip(s, i), [])
    else
      var t := TokenFrom(s, Skip(s, i));
      var f := TokenFrom(s, t.next);
      if f.kind != Word then Err(MissingFile)
      else
        var rest := Redirs(s, f.next);
        if rest.Err? then rest else Ok(rest.pos, [Redirect(OpOf(t.kind), Span(f.q, f.eq))] + rest.v)
  }

  /** parseexec's loop, with the words and redirections so far. */
  function Args(s: string, i: nat, args: seq<Span>, rs: seq<Redirect>): (r: Result<Node>)
    requires i <= |s|
    ensures r.Ok? ==> i <= r.pos <= |s|
    decreases |s| - i
  {
    if Sees(s, i, {'|', ')', '&', ';'}) then Ok(Skip(s, i), Wrap(EXEC(args), rs))
    else
      var t := TokenFrom(s, Skip(s, i));
      if t.kind == End then Ok(t.next, Wrap(EXEC(args), rs))
      else if t.kind != Word then Err(SyntaxError)
      else if |args| + 1 >= MAXARGS then Err(TooManyArgs)
      else
        var more := Redirs(s, t.next);
        if more.Err? then Err(more.e) else Args(s, more.pos, args + [Span(t.q, t.eq)], rs + more.v)
  }

  function ExecFrom(s: string, i: nat): (r: Result<Node>)
    requires i <= |s|
    ensures r.Ok? ==> i <= r.pos <= |s|
    decreases |s| - i, 1
  {
    if Sees(s, i, {'('}) then BlockFrom(s, Skip(s, i))
    else
      var first := Redirs(s, Skip(s, i));
      if first.Err? then Err(first.e) else Args(s, first.pos, [], first.v)
  }

  function BlockFrom(s: string, i: nat): (r: Result<Node>)
    requires i <= |s| && Sees(s, i, {'('})
    ensures r.Ok? ==> i <= r.pos <= |s|
    decreases |s| - i, 0
  {
    var line := LineFrom(s, TokenFrom(s, Skip(s, i)).next);
    if line.Err? then line
    else if !Sees(s, line.pos, {')'}) then Err(MissingParen)
    else
      var rs := Redirs(s, TokenFrom(s, Skip(s, line.pos)).next);
      if rs.Err? then Err(rs.e) else Ok(rs.pos, Wrap(line.v, rs.v))
  }

  function PipeFrom(s: string, i: nat): (r: Result<Node>)
    requires i <= |s|
    ensures r.Ok? ==> i <= r.pos <= |s|
    decreases |s| - i, 2
  {
    var left := ExecFrom(s, i);
    if left.Err? then left
    else if !Sees(s, left.pos, {'|'}) then Ok(Skip(s, left.pos), left.v)
    else
      var right := PipeFrom(s, TokenFrom(s, Skip(s, left.pos)).next);
      if right.Err? then right else Ok(right.pos, PIPE(left.v, right.v))
  }

  function LineFrom(s: string, i: nat): (r: Result<Node>)
    requires i <= |s|
    ensures r.Ok? ==> i <= r.pos <= |s|
    decreases |s| - i, 4
  {
    var c := PipeFrom(s, i);
    if c.Err? then c else LineRest(s, c.pos, c.v)
  }

  /** parseline after its first pipeline. */
  function LineRest(s: string, i: nat, c: Node): (r: Result<Node>)
    requires i <= |s|
    ensures r.Ok? ==> i <= r.pos <= |s|
    decreases |s| - i, 3
  {
    var p := Skip(s, i);
    if Sees(s, i, {'&'}) then LineRest(s, TokenFrom(s, p).next, BACK(c))
    else if Sees(s, p, {';'}) then
      var right := LineFrom(s, TokenFrom(s, Skip(s, p)).next);
      if right.Err? then right else Ok(right.pos, LIST(c, right.v))
    else Ok(Skip(s, p), c)
  }

  function ParseResult(s: string): Result<Node> {
    var c := LineFrom(s, 0);
    if c.Err? then c else if Skip(s, c.pos) != |s| then Err(Leftovers) else Ok(|s|, c.v)
  }

  ghost function Prepend(rs: seq<Redirect>, r: Result<seq<Redirect>>): Result<seq<Redirect>> {
    if r.Err? then r else Ok(r.pos, rs + r.v)
  }

  lemma PrependTwice(a: seq<Redirect>, b: seq<Redirect>, r: Result<seq<Redirect>>)
    ensures Prepend(a, Prepend(b, r)) == Prepend(a + b, r) && Prepend([], r) == r
  {
    if r.Ok? {
      assert a + (b + r.v) == (a + b) + r.v && [] + r.v == r.v;
    }
  }

  lemma SeesSkip(s: string, i: nat, toks: set<char>)
    requires i <= |s|
    ensures Skip(s, Skip(s, i)) == Skip(s, i) && Sees(s, Skip(s, i), toks) == Sees(s, i, toks)
  {
  }

  /** parseredirs, which wraps its command in these. */
  method ParseRedirs(s: string, i: nat) returns (r: Result<seq<Redirect>>)
    requires i <= |s|
    ensures r == Redirs(s, i)
  {
    hide TokenFrom, OpOf, Sees;
    var p, rs := i, [];
    PrependTwice([], [], Redirs(s, i));
    while true
      invariant p <= |s| && Redirs(s, i) == Prepend(rs, Redirs(s, p))
      decreases |s| - p
    {
      var sees;
      sees, p := Peek(s, p, {'<', '>'});
      if !sees {
        break;
      }
      var t := GetToken(s, p);
      var f := GetToken(s, t.next);
      if f.kind != Word {
        return Err(MissingFile);
      }
      PrependTwice(rs, [Redirect(OpOf(t.kind), Span(f.q, f.eq))], Redirs(s, f.next));
      rs := rs + [Redirect(OpOf(t.kind), Span(f.q, f.eq))];
      p := f.next;
    }
    assert rs + [] == rs;
    return Ok(p, rs);
  }

  /** parseexec. The redirections wrap the exec node that is still being filled, so they are put round it at the end. */
  method ParseExec(s: string, i: nat) returns (r: Result<Node>)
    requires i <= |s|
    ensures r == ExecFrom(s, i)
    decreases |s| - i, 1
  {
    hide TokenFrom, Wrap, Redirs;
    SeesSkip(s, i, {'('});
    var sees, p := Peek(s, i, {'('});
    if sees {
      r := ParseBlock(s, p);
      return;
    }
    var args := [];
    var first := ParseRedirs(s, p);
    if first.Err? {
      return Err(first.e);
    }
    p := first.pos;
    var rs := first.v;
    while true
      invariant p <= |s| && ExecFrom(s, i) == Args(s, p, args, rs)
      decreases |s| - p
    {
      sees, p := Peek(s, p, {'|', ')', '&', ';'});
      if sees {
        break;
      }
      var t := GetToken(s, p);
      if t.kind == End {
        p := t.next;
        break;
      }
      if t.kind != Word {
        return Err(SyntaxError);
      }
      args := args + [Span(t.q, t.eq)];
      if |args| >= MAXARGS {
        return Err(TooManyArgs);
      }
      var more := ParseRedirs(s, t.next);
      if more.Err? {
        return Err(more.e);
      }
      p, rs := more.pos, rs + more.v;
    }
    return Ok(p, Wrap(EXEC(args), rs));
  }

  /** parseblock */
  method ParseBlock(s: string, i: nat) returns (r: Result<Node>)
    requires i <= |s| && Sees(s, i, {'('})
    ensures r == BlockFrom(s, i)
    decreases |s| - i, 0
  {
    hide Wrap, Redirs;
    var sees, p := Peek(s, i, {'('});
    var t := GetToken(s, p);
    r := ParseLine(s, t.next);
    if r.Err? {
      return;
    }
    sees, p := Peek(s, r.pos, {')'});
    if !sees {
      return Err(MissingParen);
    }
    t := GetToken(s, p);
    var rs := ParseRedirs(s, t.next);
    if rs.Err? {
      return Err(rs.e);
    }
    return Ok(rs.pos, Wrap(r.v, rs.v));
  }

  /** parsepipe */
  method ParsePipe(s: string, i: nat) returns (r: Result<Node>)
    requires i <= |s|
    ensures r == PipeFrom(s, i)
    decreases |s| - i, 2
  {
    hide ExecFrom;
    r := ParseExec(s, i);
    if r.Err? {
      return;
    }
    var sees, p := Peek(s, r.pos, {'|'});
    if sees {
      var t := GetToken(s, p);
      var right := ParsePipe(s, t.next);
      if right.Err? {
        return right;
      }
      return Ok(right.pos, PIPE(r.v, right.v));
    }
    return Ok(p, r.v);
  }

  /** parseline */
  method ParseLine(s: string, i: nat) returns (r: Result<Node>)
    requires i <= |s|
    ensures r == LineFrom(s, i)
    decreases |s| - i, 4
  {
    hide PipeFrom;
    r := ParsePipe(s, i);
    if r.Err? {
      return;
    }
    var p, cmd := r.pos, r.v;
    while true
      invariant i <= p <= |s| && LineFrom(s, i) == LineRest(s, p, cmd)
      decreases |s| - p
    {
      var sees;
      ghost var start := p;
      sees, p := Peek(s, p, {'&'});
      SeesSkip(s, start, {'&'});
      if !sees {
        assert LineRest(s, start, cmd) == LineRest(s, p, cmd);
        break;
      }
      var t := GetToken(s, p);
      cmd := BACK(cmd);
      p := t.next;
    }
    SeesSkip(s, p, {';'});
    var sees;
    sees, p := Peek(s, p, {';'});
    if sees {
      var t := GetToken(s, p);
      var right := ParseLine(s, t.next);
      if right.Err? {
        return right;
      }
      return Ok(right.pos, LIST(cmd, right.v));
    }
    return Ok(p, cmd);
  }

  /** parsecmd, up to nulterminate. */
  method ParseCmd(s: string) returns (r: Result<Node>)
    ensures r == ParseResult(s)
  {
    r := ParseLine(s, 0);
    if r.Err? {
      return;
    }
    var sees, p := Peek(s, r.pos, {});
    if p != |s| {
      return Err(Leftovers);
    }
    return Ok(|s|, r.v);
  }

  /** Every word and file name of a parsed line is a maximal stretch of word characters. */
  lemma {:induction false} RedirsOk(s: string, i: nat)
    requires i <= |s|
    ensures Redirs(s, i).Ok? ==> FilesOk(s, Redirs(s, i).v)
    decreases |s| - i
  {
    if Sees(s, i, {'<', '>'}) {
      var f := TokenFrom(s, TokenFrom(s, Skip(s, i)).next);
      if f.kind == Word {
        RedirsOk(s, f.next);
      }
    }
  }

  lemma {:induction false} ArgsOk(s: string, i: nat, args: seq<Span>, rs: seq<Redirect>)
    requires i <= |s| && WordsOk(s, EXEC(args)) && FilesOk(s, rs)
    ensures Args(s, i, args, rs).Ok? ==> WordsOk(s, Args(s, i, args, rs).v)
    decreases |s| - i
  {
    hide Redirs, Wrap;
    WrapOk(s, EXEC(args), rs);
    var t := TokenFrom(s, Skip(s, i));
    if t.kind == Word && |args| + 1 < MAXARGS && Redirs(s, t.next).Ok? {
      RedirsOk(s, t.next);
      ArgsOk(s, Redirs(s, t.next).pos, args + [Span(t.q, t.eq)], rs + Redirs(s, t.next).v);
    }
  }

  lemma {:induction false} ExecOk(s: string, i: nat)
    requires i <= |s|
    ensures ExecFrom(s, i).Ok? ==> WordsOk(s, ExecFrom(s, i).v)
    decreases |s| - i, 1
  {
    hide Redirs, Args;
    if Sees(s, i, {'('}) {
      BlockOk(s, Skip(s, i));
    } else {
      RedirsOk(s, Skip(s, i));
      var first := Redirs(s, Skip(s, i));
      if first.Ok? {
        ArgsOk(s, first.pos, [], first.v);
      }
    }
  }

  lemma {:induction false} BlockOk(s: string, i: nat)
    requires i <= |s| && Sees(s, i, {'('})
    ensures BlockFrom(s, i).Ok? ==> WordsOk(s, BlockFrom(s, i).v)
    decreases |s| - i, 0
  {
    hide Redirs, Wrap, WordsOk;
    var line := LineFrom(s, TokenFrom(s, Skip(s, i)).next);
    LineOk(s, TokenFrom(s, Skip(s, i)).next);
    if line.Ok? && Sees(s, line.pos, {')'}) {
      var next := TokenFrom(s, Skip(s, line.pos)).next;
      RedirsOk(s, next);
      if Redirs(s, next).Ok? {
        WrapOk(s, line.v, Redirs(s, next).v);
      }
    }
  }

  lemma {:induction false} PipeOk(s: string, i: nat)
    requires i <= |s|
    ensures PipeFrom(s, i).Ok? ==> WordsOk(s, PipeFrom(s, i).v)
    decreases |s| - i, 2
  {
    hide ExecFrom;
    ExecOk(s, i);
    var left := ExecFrom(s, i);
    if left.Ok? && Sees(s, left.pos, {'|'}) {
      PipeOk(s, TokenFrom(s, Skip(s, left.pos)).next);
    }
  }

  lemma {:induction false} LineOk(s: string, i: nat)
    requires i <= |s|
    ensures LineFrom(s, i).Ok? ==> WordsOk(s, LineFrom(s, i).v)
    decreases |s| - i, 4
  {
    hide PipeFrom, LineRest;
    PipeOk(s, i);
    if PipeFrom(s, i).Ok? {
      RestOk(s, PipeFrom(s, i).pos, PipeFrom(s, i).v);
    }
  }

  lemma {:induction false} RestOk(s: string, i: nat, c: Node)
    requires i <= |s| && WordsOk(s, c)
    ensures LineRest(s, i, c).Ok? ==> WordsOk(s, LineRest(s, i, c).v)
    decreases |s| - i, 3
  {
    hide LineFrom;
    var p := Skip(s, i);
    if Sees(s, i, {'&'}) {
      RestOk(s, TokenFrom(s, p).next, BACK(c));
    } else if Sees(s, p, {';'}) {
      LineOk(s, TokenFrom(s, Skip(s, p)).next);
    }
  }

  /** The positions where nulterminate writes a NUL. */
  ghost function Ends(c: Node): set<nat> {
    match c
    case EXEC(args) => set i | 0 <= i < |args| :: args[i].eq
    case REDIR(cmd, r) => Ends(cmd) + {r.file.eq}
    case PIPE(left, right) => Ends(left) + Ends(right)
    case LIST(left, right) => Ends(left) + Ends(right)
    case BACK(cmd) => Ends(cmd)
  }

  /** No word ends inside a word. */
  lemma {:induction false} EndsOutside(s: string, c: Node, w: Span, k: nat)
    requires WordsOk(s, c) && IsWord(s, w) && w.q <= k < w.eq
    ensures k !in Ends(c)
  {
    match c
    case EXEC(args) =>
    case REDIR(cmd, r) => EndsOutside(s, cmd, w, k);
    case PIPE(left, right) => EndsOutside(s, left, w, k); EndsOutside(s, right, w, k);
    case LIST(left, right) => EndsOutside(s, left, w, k); EndsOutside(s, right, w, k);
    case BACK(cmd) => EndsOutside(s, cmd, w, k);
  }

  lemma {:induction false} EndsIn(s: string, c: Node)
    requires WordsOk(s, c)
    ensures forall k :: k in Ends(c) ==> k <= |s|
  {
    match c
    case EXEC(args) =>
    case REDIR(cmd, r) => EndsIn(s, cmd);
    case PIPE(left, right) => EndsIn(s, left); EndsIn(s, right);
    case LIST(left, right) => EndsIn(s, left); EndsIn(s, right);
    case BACK(cmd) => EndsIn(s, cmd);
  }

  /** nulterminate, in the buffer that holds the line and its NUL. */
  method Nulterminate(buf: array<char>, c: Node, ghost s: string)
    requires buf.Length == |s| + 1 && WordsOk(s, c)
    modifies buf
    ensures forall k :: 0 <= k < buf.Length ==> buf[k] == if k in Ends(c) then '\0' else old(buf[k])
    decreases c
  {
    EndsIn(s, c);
    match c {
      case EXEC(args) =>
        var i := 0;
        while i < |args|
          invariant 0 <= i <= |args|
          invariant forall k :: 0 <= k < buf.Length ==>
            buf[k] == if exists j :: 0 <= j < i && args[j].eq == k then '\0' else old(buf[k])
        {
          buf[args[i].eq] := '\0';
          i := i + 1;
        }
      case REDIR(cmd, r) =>
        Nulterminate(buf, cmd, s);
        buf[r.file.eq] := '\0';
      case PIPE(left, right) =>
        Nulterminate(buf, left, s);
        Nulterminate(buf, right, s);
      case LIST(left, right) =>
        Nulterminate(buf, left, s);
        Nulterminate(buf, right, s);
      case BACK(cmd) =>
        Nulterminate(buf, cmd, s);
    }
  }

  /** The C string at a position of a buffer. */
  function CString(buf: seq<char>, i: nat): string
    requires i <= |buf|
    decreases |buf| - i
  {
    if i == |buf| || buf[i] == '\0' then "" else [buf[i]] + CString(buf, i + 1)
  }

  lemma {:induction false} CStringIs(buf: seq<char>, s: string, i: nat, e: nat)
    requires i <= e <= |s| && e < |buf| && buf[e] == '\0' && forall k :: i <= k < e ==> buf[k] == s[k] && s[k] != '\0'
    ensures CString(buf, i) == s[i..e]
    decreases e - i
  {
    if i < e {
      CStringIs(buf, s, i + 1, e);
      assert s[i..e] == [s[i]] + s[i + 1..e];
    }
  }

  /** The command with its words as C strings in a buffer, and with its words as stretches of the line. */
  function ReadBack(buf: seq<char>, c: Node, ghost s: string): Cmd
    requires WordsOk(s, c) && |buf| == |s| + 1
  {
    match c
    case EXEC(args) =>
      Exec(seq(|args|, i requires 0 <= i < |args| => assert IsWord(s, args[i]); CString(buf, args[i].q)))
    case REDIR(cmd, r) => Redir(ReadBack(buf, cmd, s), r.op, CString(buf, r.file.q))
    case PIPE(left, right) => Pipe(ReadBack(buf, left, s), ReadBack(buf, right, s))
    case LIST(left, right) => List(ReadBack(buf, left, s), ReadBack(buf, right, s))
    case BACK(cmd) => Back(ReadBack(buf, cmd, s))
  }

  function Text(s: string, c: Node): Cmd
    requires WordsOk(s, c)
  {
    match c
    case EXEC(args) =>
      Exec(seq(|args|, i requires 0 <= i < |args| => assert IsWord(s, args[i]); s[args[i].q..args[i].eq]))
    case REDIR(cmd, r) => Redir(Text(s, cmd), r.op, s[r.file.q..r.file.eq])
    case PIPE(left, right) => Pipe(Text(s, left), Text(s, right))
    case LIST(left, right) => List(Text(s, left), Text(s, right))
    case BACK(cmd) => Back(Text(s, cmd))
  }

  predicate NulFree(s: string) {
    forall k :: 0 <= k < |s| ==> s[k] != '\0'
  }

  /** A buffer after nulterminate on command d. */
  ghost predicate Terminated(buf: seq<char>, s: string, d: Node) {
    |buf| == |s| + 1 && forall k :: 0 <= k <= |s| ==> buf[k] == if k in Ends(d) || k == |s| then '\0' else s[k]
  }

  lemma WordReads(buf: seq<char>, s: string, d: Node, w: Span)
    requires NulFree(s) && WordsOk(s, d) && Terminated(buf, s, d) && IsWord(s, w) && w.eq in Ends(d)
    ensures CString(buf, w.q) == s[w.q..w.eq]
  {
    forall k | w.q <= k < w.eq
      ensures buf[k] == s[k]
    {
      EndsOutside(s, d, w, k);
    }
    CStringIs(buf, s, w.q, w.eq);
  }

  /** Each word of the command reads as its own token, however many tokens the line has. */
  lemma {:induction false} ReadsBack(buf: seq<char>, s: string, d: Node, c: Node)
    requires NulFree(s) && WordsOk(s, d) && Terminated(buf, s, d) && WordsOk(s, c) && Ends(c) <= Ends(d)
    ensures ReadBack(buf, c, s) == Text(s, c)
  {
    hide Terminated, CString, IsWord;
    match c
    case EXEC(args) =>
      forall i | 0 <= i < |args|
        ensures args[i].q <= |buf| && args[i].q <= args[i].eq <= |s|
          && CString(buf, args[i].q) == s[args[i].q..args[i].eq]
      {
        assert IsWord(s, args[i]) && args[i].eq in Ends(c);
        WordBounds(buf, s, d, args[i]);
        WordReads(buf, s, d, args[i]);
      }
    case REDIR(cmd, r) =>
      ReadsBack(buf, s, d, cmd);
      WordReads(buf, s, d, r.file);
    case PIPE(left, right) =>
      ReadsBack(buf, s, d, left);
      ReadsBack(buf, s, d, right);
    case LIST(left, right) =>
      ReadsBack(buf, s, d, left);
      ReadsBack(buf, s, d, right);
    case BACK(cmd) =>
      ReadsBack(buf, s, d, cmd);
  }

  lemma WordBounds(buf: seq<char>, s: string, d: Node, w: Span)
    requires Terminated(buf, s, d) && IsWord(s, w)
    ensures w.q <= |buf| && w.q <= w.eq <= |s|
  {
  }

  /** parsecmd: the parse of the line, its words then readable in the buffer as C strings. */
  method Parse(buf: array<char>, ghost s: string) returns (r: Result<Node>)
    requires NulFree(s) && buf[..] == s + ['\0']
    modifies buf
    ensures r == ParseResult(s)
    ensures r.Err? ==> buf[..] == old(buf[..])
    ensures r.Ok? ==> WordsOk(s, r.v) && buf.Length == |s| + 1 && ReadBack(buf[..], r.v, s) == Text(s, r.v)
  {
    hide ParseResult, ReadBack, Text;
    var line := buf[..buf.Length - 1];
    assert line == s;
    r := ParseCmd(line);
    if r.Ok? {
      ParsedOk(s);
      Nulterminate(buf, r.v, s);
      assert Terminated(buf[..], s, r.v);
      ReadsBack(buf[..], s, r.v, r.v);
    }
  }

  lemma ParsedOk(s: string)
    ensures ParseResult(s).Ok? ==> WordsOk(s, ParseResult(s).v)
  {
    LineOk(s, 0);
  }
}
