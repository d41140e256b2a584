/** sh.c: the recursive-descent parser with its moving cursor, and nulterminate, which cuts the words out of
    the line in place. */
module ShParser {
  import opened ShTokens
  import opened ShGrammar
  import G = ShGrammar

  /** A command, or the message with which the shell panics. */
  datatype Outcome = Done(cmd: Cmd) | Panic(msg: string)

  /** The method came to the same result as the parser on tokens, and stands before the tokens left. */
  ghost predicate Agrees(b: string, out: Outcome, next: nat, g: Parsed) {
    && next <= |b|
    && match g
       case Ok(c, rest) => out == Done(c) && Lex(b, next) == rest
       case Err(msg) => out == Panic(msg)
  }

  lemma {:induction false} PeekMeans(b: string, ps: nat)
    requires ps <= |b|
    ensures var t := Lex(b, ps); t != [] ==>
      && var c := First(b, t[0]);
      && (c in "&" <==> Starts(t, '&')) && (c in ";" <==> Starts(t, ';')) && (c in "|" <==> Starts(t, '|'))
      && (c in "(" <==> Starts(t, '(')) && (c in ")" <==> Starts(t, ')'))
      && (c in "<>" <==> StartsRedir(t)) && (c in "|)&;" <==> StopsArgs(t))
      && (Kind(t[0]) == 'a' <==> t[0].Word?) && Kind(t[0]) != NUL
      && (Kind(t[0]) == '<' <==> t[0] == Sym('<')) && (Kind(t[0]) == '+' <==> t[0] == Append)
  {
    var t := Lex(b, ps);
    if t != [] {
      FirstSymbol(b, ps, t[0]);
    }
  }

  method ParseRedirs(cmd: Cmd, b: string, ps: nat) returns (out: Outcome, next: nat)
    requires ps <= |b|
    ensures ps <= next && Agrees(b, out, next, G.ParseRedirs(cmd, Lex(b, ps)))
  {
    hide Lex, First, Kind, StopsArgs;
    var c := cmd;
    next := ps;
    PeekMeans(b, next);
    var more;
    more, next := Peek(b, next, "<>");
    while more
      invariant ps <= next <= |b|
      invariant G.ParseRedirs(c, Lex(b, next)) == G.ParseRedirs(cmd, Lex(b, ps))
      invariant more <==> StartsRedir(Lex(b, next))
      decreases |b| - next
    {
      PeekMeans(b, next);
      ghost var t := Lex(b, next);
      var tok, q, eq, file;
      tok, q, eq, next := GetToken(b, next);
      PeekMeans(b, next);
      assert t[1..] == Lex(b, next);
      file, q, eq, next := GetToken(b, next);
      if file != 'a' {
        return Panic("missing file for redirection"), next;
      }
      assert t[2..] == Lex(b, next);
      if tok == '<' {
        c := Redir(c, Word(q, eq), O_RDONLY, 0);
      } else {
        c := Redir(c, Word(q, eq), O_WRITE, 1);
      }
      PeekMeans(b, next);
      more, next := Peek(b, next, "<>");
    }
    out := Done(c);
  }

  /** The rest of parseexec: words and redirections until a symbol that ends the command. */
  method ParseArgs(cmd: Cmd, b: string, ps: nat) returns (out: Outcome, next: nat)
    requires ps <= |b|
    ensures ps <= next && Agrees(b, out, next, G.ParseArgs(cmd, 0, Lex(b, ps)))
  {
    hide Lex, First, Kind, StopsArgs, G.ParseArgs, G.ParseRedirs;
    var c := cmd;
    var argc := 0;
    next := ps;
    PeekMeans(b, next);
    var stop;
    stop, next := Peek(b, next, "|)&;");
    while !stop
      invariant ps <= next <= |b| && argc < MAXARGS
      invariant G.ParseArgs(c, argc, Lex(b, next)) == G.ParseArgs(cmd, 0, Lex(b, ps))
      invariant stop <==> Lex(b, next) != [] && StopsArgs(Lex(b, next))
      decreases |b| - next
    {
      PeekMeans(b, next);
      ghost var t := Lex(b, next);
      ArgsUnfold(c, argc, t);
      var tok, q, eq;
      tok, q, eq, next := GetToken(b, next);
      if tok == NUL {
        break;
      }
      if tok != 'a' {
        return Panic("syntax"), next;
      }
      assert t[1..] == Lex(b, next);
      c := AddArg(c, Word(q, eq));
      argc := argc + 1;
      if argc >= MAXARGS {
        return Panic("too many args"), next;
      }
      out, next := ParseRedirs(c, b, next);
      if out.Panic? {
        return;
      }
      c := out.cmd;
      PeekMeans(b, next);
      stop, next := Peek(b, next, "|)&;");
    }
    ArgsUnfold(c, argc, Lex(b, next));
    out := Done(c);
  }

  lemma ArgsUnfold(c: Cmd, n: nat, t: seq<Tok>)
    ensures t == [] || StopsArgs(t) ==> G.ParseArgs(c, n, t) == Ok(c, t)
    ensures t != [] && !StopsArgs(t) && !t[0].Word? ==> G.ParseArgs(c, n, t) == Err("syntax")
    ensures t != [] && t[0].Word? && n + 1 >= MAXARGS ==> G.ParseArgs(c, n, t) == Err("too many args")
    ensures t != [] && t[0].Word? && n + 1 < MAXARGS ==>
      var r := G.ParseRedirs(AddArg(c, t[0]), t[1..]);
      G.ParseArgs(c, n, t) == if r.Err? then r else G.ParseArgs(r.cmd, n + 1, r.rest)
  {
  }

  method ParseExec(b: string, ps: nat) returns (out: Outcome, next: nat)
    requires ps <= |b|
    ensures ps <= next && Agrees(b, out, next, G.ParseExec(Lex(b, ps)))
    decreases |b| - ps, 1
  {
    hide Lex, First, Kind, StopsArgs, G.ParseArgs, G.ParseRedirs, G.ParseBlock;
    PeekMeans(b, ps);
    var block;
    block, next := Peek(b, ps, "(");
    if block {
      out, next := ParseBlock(b, next);
      return;
    }
    out, next := ParseRedirs(Exec([]), b, next);
    if out.Done? {
      out, next := ParseArgs(out.cmd, b, next);
    }
  }

  method ParseBlock(b: string, ps: nat) returns (out: Outcome, next: nat)
    requires ps <= |b| && Starts(Lex(b, ps), '(')
    ensures ps <= next && Agrees(b, out, next, G.ParseBlock(Lex(b, ps)))
    decreases |b| - ps, 0
  {
    hide Lex, First, Kind, StopsArgs, G.ParseLine, G.ParseRedirs;
    ghost var t := Lex(b, ps);
    var tok, q, eq;
    tok, q, eq, next := GetToken(b, ps);
    assert t[1..] == Lex(b, next);
    out, next := ParseLine(b, next);
    if out.Panic? {
      return;
    }
    var cmd := out.cmd;
    ghost var u := Lex(b, next);
    PeekMeans(b, next);
    var closed;
    closed, next := Peek(b, next, ")");
    if !closed {
      return Panic("syntax - missing )"), next;
    }
    tok, q, eq, next := GetToken(b, next);
    assert u[1..] == Lex(b, next);
    out, next := ParseRedirs(cmd, b, next);
  }

  method ParsePipe(b: string, ps: nat) returns (out: Outcome, next: nat)
    requires ps <= |b|
    ensures ps <= next && Agrees(b, out, next, G.ParsePipe(Lex(b, ps)))
    decreases |b| - ps, 2
  {
    hide Lex, First, Kind, StopsArgs, G.ParseExec;
    out, next := ParseExec(b, ps);
    if out.Panic? {
      return;
    }
    var cmd := out.cmd;
    ghost var u := Lex(b, next);
    PeekMeans(b, next);
    var more;
    more, next := Peek(b, next, "|");
    if more {
      var tok, q, eq;
      tok, q, eq, next := GetToken(b, next);
      assert u[1..] == Lex(b, next);
      out, next := ParsePipe(b, next);
      if out.Done? {
        out := Done(Pipe(cmd, out.cmd));
      }
    }
  }

  method ParseLine(b: string, ps: nat) returns (out: Outcome, next: nat)
    requires ps <= |b|
    ensures ps <= next && Agrees(b, out, next, G.ParseLine(Lex(b, ps)))
    decreases |b| - ps, 3
  {
    hide Lex, First, Kind, StopsArgs, G.ParsePipe;
    out, next := ParsePipe(b, ps);
    if out.Panic? {
      return;
    }
    var cmd := out.cmd;
    ghost var u, c := Lex(b, next), cmd;
    PeekMeans(b, next);
    var tok, q, eq, more;
    more, next := Peek(b, next, "&");
    while more
      invariant ps <= next <= |b|
      invariant ParseBacks(cmd, Lex(b, next)) == ParseBacks(c, u)
      invariant more <==> Starts(Lex(b, next), '&')
      decreases |b| - next
    {
      ghost var t := Lex(b, next);
      tok, q, eq, next := GetToken(b, next);
      assert t[1..] == Lex(b, next);
      cmd := Back(cmd);
      PeekMeans(b, next);
      more, next := Peek(b, next, "&");
    }
    ghost var v := Lex(b, next);
    PeekMeans(b, next);
    more, next := Peek(b, next, ";");
    out := Done(cmd);
    if more {
      tok, q, eq, next := GetToken(b, next);
      assert v[1..] == Lex(b, next);
      out, next := ParseLine(b, next);
      if out.Done? {
        out := Done(List(cmd, out.cmd));
      }
    }
  }

  // ---------------------------------------------------------------- cutting out the words

  ghost function ArgWords(argv: seq<Tok>): set<Tok> {
    set w | w in argv
  }

  /** The words of a command: its arguments and files. */
  ghost function Words(c: Cmd): set<Tok> {
    match c
    case Exec(argv) => ArgWords(argv)
    case Redir(sub, file, _, _) => Words(sub) + {file}
    case Pipe(l, r) => Words(l) + Words(r)
    case List(l, r) => Words(l) + Words(r)
    case Back(sub) => Words(sub)
  }

  ghost predicate EndsAt(ws: set<Tok>, i: int) {
    exists w :: w in ws && w.Word? && w.hi == i
  }

  /** `s` with a NUL behind every word of `ws`. */
  ghost predicate Cut(s: seq<char>, ws: set<Tok>, r: seq<char>) {
    |r| == |s| && forall i :: 0 <= i < |s| ==> r[i] == if EndsAt(ws, i) then NUL else s[i]
  }

  ghost predicate Fits(ws: set<Tok>, n: nat) {
    forall w :: w in ws ==> w.Word? && w.hi < n
  }

  lemma CutTwice(s: seq<char>, u: set<Tok>, r: seq<char>, v: set<Tok>, q: seq<char>)
    requires Cut(s, u, r) && Cut(r, v, q)
    ensures Cut(s, u + v, q)
  {
    forall i
      ensures EndsAt(u + v, i) <==> EndsAt(u, i) || EndsAt(v, i)
    {
      if EndsAt(u, i) {
        var w :| w in u && w.Word? && w.hi == i;
        assert w in u + v;
      }
      if EndsAt(v, i) {
        var w :| w in v && w.Word? && w.hi == i;
        assert w in u + v;
      }
    }
  }

  method NulTerminate(cmd: Cmd, buf: array<char>)
    requires Fits(Words(cmd), buf.Length)
    modifies buf
    ensures Cut(old(buf[..]), Words(cmd), buf[..])
    decreases cmd
  {
    match cmd
    case Exec(argv) =>
      for i := 0 to |argv|
        invariant Cut(old(buf[..]), ArgWords(argv[..i]), buf[..])
      {
        assert argv[i] in Words(cmd);
        ghost var before := buf[..];
        buf[argv[i].hi] := NUL;
        assert EndsAt({argv[i]}, argv[i].hi);
        assert Cut(before, {argv[i]}, buf[..]);
        CutTwice(old(buf[..]), ArgWords(argv[..i]), before, {argv[i]}, buf[..]);
        assert ArgWords(argv[..i + 1]) == ArgWords(argv[..i]) + {argv[i]};
      }
      assert argv[..|argv|] == argv;
    case Redir(sub, file, _, _) =>
      assert file in Words(cmd);
      NulTerminate(sub, buf);
      ghost var before := buf[..];
      buf[file.hi] := NUL;
      assert EndsAt({file}, file.hi);
      assert Cut(before, {file}, buf[..]);
      CutTwice(old(buf[..]), Words(sub), before, {file}, buf[..]);
    case Pipe(left, right) =>
      NulTerminate(left, buf);
      ghost var before := buf[..];
      NulTerminate(right, buf);
      CutTwice(old(buf[..]), Words(left), before, Words(right), buf[..]);
    case List(left, right) =>
      NulTerminate(left, buf);
      ghost var before := buf[..];
      NulTerminate(right, buf);
      CutTwice(old(buf[..]), Words(left), before, Words(right), buf[..]);
    case Back(sub) =>
      NulTerminate(sub, buf);
  }

  // ---------------------------------------------------------------- the words of a line

  ghost function WordToks(t: seq<Tok>): set<Tok> {
    set w | w in t && w.Word?
  }

  lemma WordToksOf(a: seq<Tok>, x: Tok, b: seq<Tok>)
    ensures WordToks(a + [x] + b) == WordToks(a) + WordToks(b) + (if x.Word? then {x} else {})
  {
  }

  lemma {:induction false} AddArgWords(c: Cmd, w: Tok)
    requires Spine(c)
    ensures Spine(AddArg(c, w)) && Words(AddArg(c, w)) == Words(c) + {w}
  {
    if c.Redir? {
      AddArgWords(c.cmd, w);
    }
  }

  lemma {:induction false} SimpleWords(c0: Cmd, n: nat, t: seq<Tok>, c: Cmd)
    requires Simple(c0, n, t, c) && Spine(c0)
    ensures Words(c) == Words(c0) + WordToks(t)
    decreases |t|
  {
    hide AddArg;
    if t != [] {
      if t[0].Word? {
        AddArgWords(c0, t[0]);
        SimpleWords(AddArg(c0, t[0]), n + 1, t[1..], c);
        assert t == [] + [t[0]] + t[1..];
        WordToksOf([], t[0], t[1..]);
      } else {
        SimpleWords(Redirect(c0, t[0], t[1]), n, t[2..], c);
        assert t == [t[0]] + [t[1]] + t[2..];
        WordToksOf([t[0]], t[1], t[2..]);
      }
    }
  }

  lemma {:induction false} RedirsWords(c0: Cmd, t: seq<Tok>, c: Cmd)
    requires Redirs(c0, t, c)
    ensures Words(c) == Words(c0) + WordToks(t)
    decreases |t|
  {
    if t != [] {
      RedirsWords(Redirect(c0, t[0], t[1]), t[2..], c);
      assert t == [t[0]] + [t[1]] + t[2..];
      WordToksOf([t[0]], t[1], t[2..]);
    }
  }

  lemma {:induction false} ElementWords(t: seq<Tok>, c: Cmd)
    requires Element(t, c)
    ensures Words(c) == WordToks(t)
    decreases |t|, 1
  {
    hide WordToks, Simple, Redirs, Line;
    if Starts(t, '(') {
      var k, c0 := BlockOf(t, c);
      LineWords(t[1..k], c0);
      RedirsWords(c0, t[k + 1..], c);
      assert t == ([] + [t[0]] + t[1..k]) + [t[k]] + t[k + 1..];
      WordToksOf([] + [t[0]] + t[1..k], t[k], t[k + 1..]);
      WordToksOf([], t[0], t[1..k]);
      assert WordToks([]) == {} by { NoWords(); }
    } else {
      SimpleWords(Exec([]), 0, t, c);
      assert Words(Exec([])) == {};
    }
  }

  lemma NoWords()
    ensures WordToks([]) == {}
  {
  }

  lemma {:induction false} PipelineWords(t: seq<Tok>, c: Cmd)
    requires Pipeline(t, c)
    ensures Words(c) == WordToks(t)
    decreases |t|, 3
  {
    hide WordToks, Element;
    if Element(t, c) {
      ElementWords(t, c);
    } else {
      var k: nat :| PipeAt(t, k, c.left, c.right);
      ElementWords(t[..k], c.left);
      PipelineWords(t[k + 1..], c.right);
      assert t == t[..k] + [t[k]] + t[k + 1..];
      WordToksOf(t[..k], t[k], t[k + 1..]);
    }
  }

  lemma {:induction false} JobsWords(t: seq<Tok>, c: Cmd)
    requires Jobs(t, c)
    ensures Words(c) == WordToks(t)
    decreases |t|, 4
  {
    hide WordToks, Pipeline;
    if t != [] && t[|t| - 1] == Sym('&') {
      JobsWords(t[..|t| - 1], c.cmd);
      assert t == t[..|t| - 1] + [t[|t| - 1]] + [];
      WordToksOf(t[..|t| - 1], t[|t| - 1], []);
      NoWords();
    } else {
      PipelineWords(t, c);
    }
  }

  /** The words of the command are the words of the line, all of them. */
  lemma {:induction false} LineWords(t: seq<Tok>, c: Cmd)
    requires Line(t, c)
    ensures Words(c) == WordToks(t)
    decreases |t|, 6
  {
    hide WordToks, Jobs;
    if Jobs(t, c) {
      JobsWords(t, c);
    } else {
      var k: nat :| ListAt(t, k, c.left, c.right);
      JobsWords(t[..k], c.left);
      LineWords(t[k + 1..], c.right);
      assert t == t[..k] + [t[k]] + t[k + 1..];
      WordToksOf(t[..k], t[k], t[k + 1..]);
    }
  }

  // ---------------------------------------------------------------- the strings that exec and open see

  /** The string that starts at `i`. */
  function CString(s: seq<char>, i: nat): string
    decreases |s| - i
  {
    if i < |s| && s[i] != NUL then [s[i]] + CString(s, i + 1) else []
  }

  lemma {:induction false} CStringIs(s: seq<char>, lo: nat, hi: nat)
    requires lo <= hi < |s| && s[hi] == NUL && forall k :: lo <= k < hi ==> s[k] != NUL
    ensures CString(s, lo) == s[lo..hi]
    decreases hi - lo
  {
    if lo < hi {
      CStringIs(s, lo + 1, hi);
    }
  }

  /** No terminator is written inside a word, so each word reads as its own text. */
  lemma {:induction false} WordReads(b: string, line: seq<char>, ws: set<Tok>, cut: seq<char>, w: Tok)
    requires NUL !in b && line == b + [NUL] && Cut(line, ws, cut)
    requires w in ws && forall x :: x in ws ==> IsWord(b, x)
    ensures IsWord(b, w) && CString(cut, w.lo) == b[w.lo..w.hi]
  {
    assert IsWord(b, w);
    assert EndsAt(ws, w.hi);
    forall k | w.lo <= k < w.hi
      ensures cut[k] == b[k] && b[k] != NUL
    {
      assert b[k] in b;
      forall x | x in ws
        ensures x.Word? ==> x.hi != k
      {
        assert IsWord(b, x);
      }
    }
    CStringIs(cut, w.lo, w.hi);
    assert cut[w.lo..w.hi] == b[w.lo..w.hi];
  }

  /** parsecmd: the command that the line means, or a panic exactly when it means none; afterwards every
      argument and file name reads up to its NUL as the text it had in the line. */
  method ParseCmd(buf: array<char>, n: nat) returns (out: Outcome)
    requires buf.Length == n + 1 && buf[n] == NUL && NUL !in buf[..n]
    modifies buf
    ensures var b := old(buf[..n]);
      && (out.Done? ==> Line(Lex(b, 0), out.cmd) && Words(out.cmd) == WordToks(Lex(b, 0)))
      && (out.Done? ==> forall w :: w in Words(out.cmd) ==>
            w.Word? && w.lo < w.hi <= n && CString(buf[..], w.lo) == b[w.lo..w.hi])
      && (out.Panic? ==> buf[..] == old(buf[..]) && forall c :: !Line(Lex(b, 0), c))
  {
    hide Lex, Line, G.ParseLine, IsWord, Words, WordToks;
    var b := buf[..n];
    ghost var line, t := buf[..], Lex(b, 0);
    assert line == b + [NUL];
    forall c
      ensures Parse(t) == Ok(c, []) <==> Line(t, c)
    {
      ParseIff(t, c);
    }
    var next, found;
    out, next := ParseLine(b, 0);
    if out.Panic? {
      return;
    }
    found, next := Peek(b, next, "");
    if next != n {
      return Panic("syntax");
    }
    LineWords(t, out.cmd);
    forall w | w in Words(out.cmd)
      ensures w.Word? && w.lo < w.hi <= n && IsWord(b, w)
    {
      WordOfLine(b, w);
    }
    NulTerminate(out.cmd, buf);
    forall w | w in Words(out.cmd)
      ensures CString(buf[..], w.lo) == b[w.lo..w.hi]
    {
      WordReads(b, line, Words(out.cmd), buf[..], w);
    }
  }

  lemma WordOfLine(b: string, w: Tok)
    requires w in WordToks(Lex(b, 0))
    ensures w.Word? && w.lo < w.hi <= |b| && IsWord(b, w)
  {
    LexWords(b, 0, w);
  }
}
