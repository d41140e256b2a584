/** The grammar of the shell, on tokens: what a command line means, and recursive descent over it. */
module ShGrammar {
  import opened ShTokens

  const MAXARGS: nat := 10
  const O_RDONLY: nat := 0
  const O_WRITE: nat := 0x201                // O_WRONLY|O_CREATE

  datatype Cmd =
    | Exec(argv: seq<Tok>)
    | Redir(cmd: Cmd, file: Tok, mode: nat, fd: nat)
    | Pipe(left: Cmd, right: Cmd)
    | List(left: Cmd, right: Cmd)
    | Back(cmd: Cmd)

  datatype Parsed = Ok(cmd: Cmd, rest: seq<Tok>) | Err(msg: string)

  predicate Starts(t: seq<Tok>, c: char) {
    t != [] && t[0] == Sym(c)
  }

  predicate StartsRedir(t: seq<Tok>) {
    t != [] && (t[0] == Sym('<') || t[0] == Sym('>') || t[0] == Append)
  }

  /** `cmd->argv[argc++] = q` reaches the exec node inside the redirections. */
  function AddArg(c: Cmd, w: Tok): Cmd {
    match c
    case Exec(argv) => Exec(argv + [w])
    case Redir(sub, file, mode, fd) => Redir(AddArg(sub, w), file, mode, fd)
    case _ => c
  }

  /** An exec node in redirections. */
  predicate Spine(c: Cmd) {
    c.Exec? || (c.Redir? && Spine(c.cmd))
  }

  function Redirect(c: Cmd, op: Tok, file: Tok): Cmd {
    if op == Sym('<') then Redir(c, file, O_RDONLY, 0) else Redir(c, file, O_WRITE, 1)
  }

  // ---------------------------------------------------------------- what token lists mean

  /** A simple command: words are its arguments in order, redirections wrap it in order. `n` arguments are
      there already; there may be MAXARGS - 1 at most. */
  ghost predicate Simple(c0: Cmd, n: nat, t: seq<Tok>, c: Cmd)
    decreases |t|
  {
    if t == [] then c == c0
    else if t[0].Word? then n + 1 < MAXARGS && Simple(AddArg(c0, t[0]), n + 1, t[1..], c)
    else StartsRedir(t) && |t| >= 2 && t[1].Word? && Simple(Redirect(c0, t[0], t[1]), n, t[2..], c)
  }

  ghost predicate Redirs(c0: Cmd, t: seq<Tok>, c: Cmd)
    decreases |t|
  {
    if t == [] then c == c0
    else StartsRedir(t) && |t| >= 2 && t[1].Word? && Redirs(Redirect(c0, t[0], t[1]), t[2..], c)
  }

  /** A simple command, or a line in parentheses with redirections behind. */
  ghost predicate Element(t: seq<Tok>, c: Cmd)
    decreases |t|, 1
  {
    if Starts(t, '(') then exists k: nat, c0: Cmd :: BlockAt(t, k, c0, c)
    else Simple(Exec([]), 0, t, c)
  }

  ghost predicate BlockAt(t: seq<Tok>, k: nat, c0: Cmd, c: Cmd)
    decreases |t|, 0
  {
    0 < k < |t| && t[k] == Sym(')') && Line(t[1..k], c0) && Redirs(c0, t[k + 1..], c)
  }

  ghost predicate Pipeline(t: seq<Tok>, c: Cmd)
    decreases |t|, 3
  {
    Element(t, c) || (c.Pipe? && exists k: nat :: PipeAt(t, k, c.left, c.right))
  }

  ghost predicate PipeAt(t: seq<Tok>, k: nat, a: Cmd, b: Cmd)
    decreases |t|, 2
  {
    k < |t| && t[k] == Sym('|') && Element(t[..k], a) && Pipeline(t[k + 1..], b)
  }

  /** A pipeline followed by any number of `&`. */
  ghost predicate Jobs(t: seq<Tok>, c: Cmd)
    decreases |t|, 4
  {
    if t != [] && t[|t| - 1] == Sym('&') then c.Back? && Jobs(t[..|t| - 1], c.cmd) else Pipeline(t, c)
  }

  ghost predicate Line(t: seq<Tok>, c: Cmd)
    decreases |t|, 6
  {
    Jobs(t, c) || (c.List? && exists k: nat :: ListAt(t, k, c.left, c.right))
  }

  ghost predicate ListAt(t: seq<Tok>, k: nat, a: Cmd, b: Cmd)
    decreases |t|, 5
  {
    k < |t| && t[k] == Sym(';') && Jobs(t[..k], a) && Line(t[k + 1..], b)
  }

  // ---------------------------------------------------------------- recursive descent

  function ParseRedirs(c: Cmd, t: seq<Tok>): (r: Parsed)
    ensures r.Ok? ==> |r.rest| <= |t|
    decreases |t|
  {
    if !StartsRedir(t) then Ok(c, t)
    else if |t| < 2 || !t[1].Word? then Err("missing file for redirection")
    else ParseRedirs(Redirect(c, t[0], t[1]), t[2..])
  }

  predicate StopsArgs(t: seq<Tok>) {
    t == [] || Starts(t, '|') || Starts(t, ')') || Starts(t, '&') || Starts(t, ';')
  }

  /** The loop of parseexec; `n` arguments so far. */
  function ParseArgs(c: Cmd, n: nat, t: seq<Tok>): (r: Parsed)
    ensures r.Ok? ==> |r.rest| <= |t|
    decreases |t|
  {
    if StopsArgs(t) then Ok(c, t)
    else if !t[0].Word? then Err("syntax")
    else if n + 1 >= MAXARGS then Err("too many args")
    else
      var r := ParseRedirs(AddArg(c, t[0]), t[1..]);
      if r.Err? then r else ParseArgs(r.cmd, n + 1, r.rest)
  }

  function ParseExec(t: seq<Tok>): (r: Parsed)
    ensures r.Ok? ==> |r.rest| <= |t|
    decreases |t|, 1
  {
    if Starts(t, '(') then ParseBlock(t)
    else
      var r := ParseRedirs(Exec([]), t);
      if r.Err? then r else ParseArgs(r.cmd, 0, r.rest)
  }

  function ParseBlock(t: seq<Tok>): (r: Parsed)
    requires Starts(t, '(')
    ensures r.Ok? ==> |r.rest| <= |t|
    decreases |t|, 0
  {
    var r := ParseLine(t[1..]);
    if r.Err? then r
    else if !Starts(r.rest, ')') then Err("syntax - missing )")
    else ParseRedirs(r.cmd, r.rest[1..])
  }

  function ParsePipe(t: seq<Tok>): (r: Parsed)
    ensures r.Ok? ==> |r.rest| <= |t|
    decreases |t|, 2
  {
    var r := ParseExec(t);
    if r.Err? || !Starts(r.rest, '|') then r
    else
      var r2 := ParsePipe(r.rest[1..]);
      if r2.Err? then r2 else Ok(Pipe(r.cmd, r2.cmd), r2.rest)
  }

  function ParseBacks(c: Cmd, t: seq<Tok>): (r: Parsed)
    ensures r.Ok? && |r.rest| <= |t|
    decreases |t|
  {
    if Starts(t, '&') then ParseBacks(Back(c), t[1..]) else Ok(c, t)
  }

  function ParseLine(t: seq<Tok>): (r: Parsed)
    ensures r.Ok? ==> |r.rest| <= |t|
    decreases |t|, 3
  {
    var r := ParsePipe(t);
    if r.Err? then r
    else
      var r1 := ParseBacks(r.cmd, r.rest);
      if !Starts(r1.rest, ';') then r1
      else
        var r2 := ParseLine(r1.rest[1..]);
        if r2.Err? then r2 else Ok(List(r1.cmd, r2.cmd), r2.rest)
  }

  /** The whole line, with nothing left over. */
  function Parse(t: seq<Tok>): Parsed {
    var r := ParseLine(t);
    if r.Ok? && r.rest != [] then Err("syntax") else r
  }

  // ---------------------------------------------------------------- soundness

  lemma {:induction false} RedirsSound(c: Cmd, t: seq<Tok>) returns (pre: seq<Tok>)
    requires ParseRedirs(c, t).Ok?
    ensures var r := ParseRedirs(c, t); t == pre + r.rest && Redirs(c, pre, r.cmd) && !StartsRedir(r.rest)
    decreases |t|
  {
    hide Redirect;
    if !StartsRedir(t) {
      pre := [];
    } else {
      var more := RedirsSound(Redirect(c, t[0], t[1]), t[2..]);
      pre := t[..2] + more;
      assert pre[2..] == more;
    }
  }

  /** Redirections in front of a simple command are part of it. */
  lemma {:induction false} RedirsThenSimple(c0: Cmd, n: nat, a: seq<Tok>, c1: Cmd, b: seq<Tok>, c: Cmd)
    requires Redirs(c0, a, c1) && Simple(c1, n, b, c)
    ensures Simple(c0, n, a + b, c)
    decreases |a|
  {
    hide Redirect, AddArg;
    if a == [] {
      assert a + b == b;
    } else {
      RedirsThenSimple(Redirect(c0, a[0], a[1]), n, a[2..], c1, b, c);
      assert (a + b)[2..] == a[2..] + b;
    }
  }

  lemma {:induction false} ArgsSound(c: Cmd, n: nat, t: seq<Tok>) returns (pre: seq<Tok>)
    requires ParseArgs(c, n, t).Ok?
    ensures var r := ParseArgs(c, n, t); t == pre + r.rest && Simple(c, n, pre, r.cmd)
    ensures pre != [] ==> !Starts(pre, '(')
    decreases |t|
  {
    hide ParseRedirs, Redirs, AddArg, Redirect, StartsRedir;
    if StopsArgs(t) {
      pre := [];
    } else {
      var c1 := AddArg(c, t[0]);
      var r := ParseRedirs(c1, t[1..]);
      var a := RedirsSound(c1, t[1..]);
      var b := ArgsSound(r.cmd, n + 1, r.rest);
      var done := ParseArgs(r.cmd, n + 1, r.rest);
      assert ParseArgs(c, n, t) == done;
      RedirsThenSimple(c1, n + 1, a, r.cmd, b, done.cmd);
      pre := [t[0]] + (a + b);
      assert pre[1..] == a + b;
    }
  }

  lemma {:induction false} ExecSound(t: seq<Tok>) returns (pre: seq<Tok>)
    requires ParseExec(t).Ok?
    ensures var r := ParseExec(t); t == pre + r.rest && Element(pre, r.cmd)
    decreases |t|, 1
  {
    hide ParseRedirs, ParseArgs, Redirs, Simple, ParseBlock, BlockAt, AddArg, StopsArgs, StartsRedir;
    if Starts(t, '(') {
      pre := BlockSound(t);
    } else {
      var r := ParseRedirs(Exec([]), t);
      var a := RedirsSound(Exec([]), t);
      var b := ArgsSound(r.cmd, 0, r.rest);
      pre := a + b;
      RedirsThenSimple(Exec([]), 0, a, r.cmd, b, ParseExec(t).cmd);
      assert pre != [] ==> pre[0] == t[0];
    }
  }

  lemma {:induction false} BlockSound(t: seq<Tok>) returns (pre: seq<Tok>)
    requires Starts(t, '(') && ParseBlock(t).Ok?
    ensures var r := ParseBlock(t); t == pre + r.rest && Element(pre, r.cmd)
    decreases |t|, 0
  {
    hide ParseLine, Line, ParseRedirs, Redirs, Simple, StartsRedir;
    var r := ParseLine(t[1..]);
    var a := LineSound(t[1..]);
    var b := RedirsSound(r.cmd, r.rest[1..]);
    pre := [t[0]] + a + [r.rest[0]] + b;
    var k := 1 + |a|;
    assert pre[1..k] == a && pre[k + 1..] == b;
    assert BlockAt(pre, k, r.cmd, ParseBlock(t).cmd);
  }

  lemma {:induction false} PipeSound(t: seq<Tok>) returns (pre: seq<Tok>)
    requires ParsePipe(t).Ok?
    ensures var r := ParsePipe(t); t == pre + r.rest && Pipeline(pre, r.cmd)
    decreases |t|, 2
  {
    hide ParseExec, Element;
    var r := ParseExec(t);
    var a := ExecSound(t);
    if !Starts(r.rest, '|') {
      pre := a;
    } else {
      var r2 := ParsePipe(r.rest[1..]);
      var b := PipeSound(r.rest[1..]);
      pre := a + [r.rest[0]] + b;
      assert pre[..|a|] == a && pre[|a| + 1..] == b;
      assert PipeAt(pre, |a|, r.cmd, r2.cmd);
    }
  }

  lemma {:induction false} OneMoreBack(a: seq<Tok>, c: Cmd)
    requires Jobs(a, c)
    ensures Jobs(a + [Sym('&')], Back(c))
  {
    hide Pipeline;
    var u := a + [Sym('&')];
    assert u[..|u| - 1] == a;
  }

  /** Some command that is not yet in the background, then `&`s. */
  lemma {:induction false} BacksSound(a: seq<Tok>, c: Cmd, t: seq<Tok>) returns (pre: seq<Tok>)
    requires Jobs(a, c)
    ensures var r := ParseBacks(c, t); t == pre + r.rest && Jobs(a + pre, r.cmd)
    decreases |t|
  {
    hide Jobs;
    if Starts(t, '&') {
      OneMoreBack(a, c);
      var more := BacksSound(a + [t[0]], Back(c), t[1..]);
      pre := [t[0]] + more;
      assert a + pre == a + [t[0]] + more;
    } else {
      pre := [];
      assert a + pre == a;
    }
  }

  lemma {:induction false} LineSound(t: seq<Tok>) returns (pre: seq<Tok>)
    requires ParseLine(t).Ok?
    ensures var r := ParseLine(t); t == pre + r.rest && Line(pre, r.cmd)
    decreases |t|, 3
  {
    hide ParsePipe, ParseBacks, Jobs, Pipeline;
    var r := ParsePipe(t);
    var a := PipeSound(t);
    PipelineIsJob(a, r.cmd);
    var r1 := ParseBacks(r.cmd, r.rest);
    var b := BacksSound(a, r.cmd, r.rest);
    if !Starts(r1.rest, ';') {
      pre := a + b;
    } else {
      var r2 := ParseLine(r1.rest[1..]);
      var d := LineSound(r1.rest[1..]);
      pre := a + b + [r1.rest[0]] + d;
      var k := |a + b|;
      assert pre[..k] == a + b && pre[k + 1..] == d;
      assert ListAt(pre, k, r1.cmd, r2.cmd);
    }
  }

  lemma BlockOf(t: seq<Tok>, c: Cmd) returns (k: nat, c0: Cmd)
    requires Starts(t, '(') && Element(t, c)
    ensures BlockAt(t, k, c0, c)
  {
    k, c0 :| BlockAt(t, k, c0, c);
  }

  lemma {:induction false} ElementEnd(t: seq<Tok>, c: Cmd)
    requires Element(t, c)
    ensures t != [] ==> t[|t| - 1] != Sym('&')
  {
    hide Simple, Redirs, Line;
    if Starts(t, '(') {
      var k, c0 := BlockOf(t, c);
      RedirsEnd(c0, t[k + 1..], c);
    } else {
      SimpleEnd(Exec([]), 0, t, c);
    }
  }

  /** A pipeline does not end in `&`. */
  lemma {:induction false} NoTrailingBack(t: seq<Tok>, c: Cmd)
    requires Pipeline(t, c)
    ensures t != [] ==> t[|t| - 1] != Sym('&')
    decreases |t|
  {
    hide Element;
    if Element(t, c) {
      ElementEnd(t, c);
    } else {
      var k: nat :| PipeAt(t, k, c.left, c.right);
      NoTrailingBack(t[k + 1..], c.right);
    }
  }

  lemma PipelineIsJob(t: seq<Tok>, c: Cmd)
    requires Pipeline(t, c)
    ensures Jobs(t, c)
  {
    NoTrailingBack(t, c);
  }

  lemma {:induction false} RedirsEnd(c0: Cmd, t: seq<Tok>, c: Cmd)
    requires Redirs(c0, t, c)
    ensures t != [] ==> t[|t| - 1].Word?
    decreases |t|
  {
    hide Redirect;
    if t != [] {
      RedirsEnd(Redirect(c0, t[0], t[1]), t[2..], c);
    }
  }

  lemma {:induction false} SimpleEnd(c0: Cmd, n: nat, t: seq<Tok>, c: Cmd)
    requires Simple(c0, n, t, c)
    ensures t != [] ==> t[|t| - 1].Word?
    decreases |t|
  {
    hide Redirect, AddArg;
    if t != [] {
      if t[0].Word? {
        SimpleEnd(AddArg(c0, t[0]), n + 1, t[1..], c);
      } else {
        SimpleEnd(Redirect(c0, t[0], t[1]), n, t[2..], c);
      }
    }
  }

  // ---------------------------------------------------------------- completeness

  lemma {:induction false} RedirsComplete(c0: Cmd, t: seq<Tok>, c: Cmd, rest: seq<Tok>)
    requires Redirs(c0, t, c) && !StartsRedir(rest)
    ensures ParseRedirs(c0, t + rest) == Ok(c, rest)
    decreases |t|
  {
    hide Redirect;
    if t == [] {
      assert t + rest == rest;
    } else {
      assert (t + rest)[2..] == t[2..] + rest;
      RedirsComplete(Redirect(c0, t[0], t[1]), t[2..], c, rest);
    }
  }

  lemma {:induction false} SimpleComplete(c0: Cmd, n: nat, t: seq<Tok>, c: Cmd, rest: seq<Tok>)
    requires Simple(c0, n, t, c) && StopsArgs(rest)
    ensures var r := ParseRedirs(c0, t + rest); r.Ok? && ParseArgs(r.cmd, n, r.rest) == Ok(c, rest)
    decreases |t|
  {
    hide AddArg, Redirect, ParseRedirs, ParseArgs;
    var all := t + rest;
    RedirsStep(c0, all);
    if t == [] {
      assert all == rest;
      ArgsStep(c0, n, rest);
    } else if t[0].Word? {
      assert all[0] == t[0] && all[1..] == t[1..] + rest;
      ArgsStep(c0, n, all);
      SimpleComplete(AddArg(c0, t[0]), n + 1, t[1..], c, rest);
    } else {
      assert all[0] == t[0] && all[1] == t[1] && all[2..] == t[2..] + rest;
      SimpleComplete(Redirect(c0, t[0], t[1]), n, t[2..], c, rest);
    }
  }

  lemma RedirsStep(c: Cmd, t: seq<Tok>)
    ensures !StartsRedir(t) ==> ParseRedirs(c, t) == Ok(c, t)
    ensures StartsRedir(t) && |t| >= 2 && t[1].Word? ==>
      ParseRedirs(c, t) == ParseRedirs(Redirect(c, t[0], t[1]), t[2..])
  {
  }

  lemma ArgsStep(c: Cmd, n: nat, t: seq<Tok>)
    ensures StopsArgs(t) ==> ParseArgs(c, n, t) == Ok(c, t)
    ensures !StopsArgs(t) && t[0].Word? && n + 1 < MAXARGS ==>
      var r := ParseRedirs(AddArg(c, t[0]), t[1..]);
      ParseArgs(c, n, t) == if r.Err? then r else ParseArgs(r.cmd, n + 1, r.rest)
  {
  }

  lemma {:induction false} ElementComplete(t: seq<Tok>, c: Cmd, rest: seq<Tok>)
    requires Element(t, c) && StopsArgs(rest)
    ensures ParseExec(t + rest) == Ok(c, rest)
    decreases |t|, 1
  {
    hide ParseLine, ParseRedirs, ParseArgs, Simple, Line, Redirs;
    if Starts(t, '(') {
      var k, c0 := BlockOf(t, c);
      var u, v := t[1..k], t[k + 1..];
      var behind := [t[k]] + (v + rest);
      assert (t + rest)[1..] == u + behind;
      LineComplete(u, c0, behind);
      assert behind[1..] == v + rest;
      RedirsComplete(c0, v, c, rest);
      assert ParseExec(t + rest) == ParseBlock(t + rest);
    } else {
      SimpleComplete(Exec([]), 0, t, c, rest);
      assert !Starts(t + rest, '(');
    }
  }

  lemma {:induction false} PipeComplete(t: seq<Tok>, c: Cmd, rest: seq<Tok>)
    requires Pipeline(t, c) && StopsArgs(rest) && !Starts(rest, '|')
    ensures ParsePipe(t + rest) == Ok(c, rest)
    decreases |t|, 3
  {
    hide ParseExec, Element;
    if Element(t, c) {
      ElementComplete(t, c, rest);
    } else {
      var k: nat :| PipeAt(t, k, c.left, c.right);
      var behind := [t[k]] + (t[k + 1..] + rest);
      assert t + rest == t[..k] + behind;
      ElementComplete(t[..k], c.left, behind);
      assert behind[1..] == t[k + 1..] + rest;
      PipeComplete(t[k + 1..], c.right, rest);
    }
  }

  lemma {:induction false} JobsComplete(t: seq<Tok>, c: Cmd, rest: seq<Tok>)
    requires Jobs(t, c) && StopsArgs(rest) && !Starts(rest, '|')
    ensures var r := ParsePipe(t + rest); r.Ok? && ParseBacks(r.cmd, r.rest) == ParseBacks(c, rest)
    decreases |t|, 4
  {
    hide ParsePipe, Pipeline;
    if t != [] && t[|t| - 1] == Sym('&') {
      var u := t[..|t| - 1];
      var behind := [t[|t| - 1]] + rest;
      assert t + rest == u + behind;
      JobsComplete(u, c.cmd, behind);
      assert behind[1..] == rest;
    } else {
      PipeComplete(t, c, rest);
    }
  }

  lemma {:induction false} LineComplete(t: seq<Tok>, c: Cmd, rest: seq<Tok>)
    requires Line(t, c) && (rest == [] || Starts(rest, ')'))
    ensures ParseLine(t + rest) == Ok(c, rest)
    decreases |t|, 6
  {
    hide ParsePipe, Jobs;
    if Jobs(t, c) {
      JobsComplete(t, c, rest);
    } else {
      var k: nat :| ListAt(t, k, c.left, c.right);
      var behind := [t[k]] + (t[k + 1..] + rest);
      assert t + rest == t[..k] + behind;
      JobsComplete(t[..k], c.left, behind);
      assert behind[1..] == t[k + 1..] + rest;
      LineComplete(t[k + 1..], c.right, rest);
    }
  }

  /** The parser accepts exactly the lines of the grammar, with the command they mean. */
  lemma {:induction false} ParseIff(t: seq<Tok>, c: Cmd)
    ensures Parse(t) == Ok(c, []) <==> Line(t, c)
  {
    if Parse(t) == Ok(c, []) {
      var pre := LineSound(t);
      assert pre + [] == pre;
    }
    if Line(t, c) {
      LineComplete(t, c, []);
      assert t + [] == t;
    }
  }

  /** A line has one meaning. */
  lemma {:induction false} Unambiguous(t: seq<Tok>, c: Cmd, d: Cmd)
    requires Line(t, c) && Line(t, d)
    ensures c == d
  {
    ParseIff(t, c);
    ParseIff(t, d);
  }
}
