/** The order of things in a command: the arguments and the redirections of a line come out in the order in which they
    stand there. */
module ShOrder {
  import opened ShTokens
  import opened ShGrammar

  predicate IsRedir(t: Tok) {
    t == Sym('<') || t == Sym('>') || t == Append
  }

  /** The words of a line that do not follow a redirection symbol. `after`: there is one in front of the line. */
  function PlainWords(t: seq<Tok>, after: bool): seq<Tok> {
    if t == [] then []
    else (if t[0].Word? && !after then [t[0]] else []) + PlainWords(t[1..], IsRedir(t[0]))
  }

  /** What is to be opened, how, and under which descriptor. */
  datatype Opening = Opening(file: Tok, mode: nat, fd: nat)

  /** Standard input for reading behind `<`; standard output for writing, created if it does not exist, behind `>` and
      `>>`. */
  function Opens(symbol: Tok, file: Tok): Opening {
    if symbol == Sym('<') then Opening(file, 0, 0) else Opening(file, 0x201, 1)
  }

  /** The redirection symbols of a line with the words that follow them. */
  function Openings(t: seq<Tok>): seq<Opening> {
    if |t| < 2 then []
    else (if IsRedir(t[0]) && t[1].Word? then [Opens(t[0], t[1])] else []) + Openings(t[1..])
  }

  /** The arguments of all programs of a command, from left to right. */
  function Args(c: Cmd): seq<Tok> {
    match c
    case Exec(argv) => argv
    case Redir(sub, _, _, _) => Args(sub)
    case Pipe(a, b) => Args(a) + Args(b)
    case List(a, b) => Args(a) + Args(b)
    case Back(sub) => Args(sub)
  }

  /** Its redirections, from left to right, and from the inside out. */
  function Files(c: Cmd): seq<Opening> {
    match c
    case Exec(_) => []
    case Redir(sub, file, mode, fd) => Files(sub) + [Opening(file, mode, fd)]
    case Pipe(a, b) => Files(a) + Files(b)
    case List(a, b) => Files(a) + Files(b)
    case Back(sub) => Files(sub)
  }

  lemma {:induction false} AddArgLast(c: Cmd, w: Tok)
    requires Spine(c)
    ensures Spine(AddArg(c, w)) && Args(AddArg(c, w)) == Args(c) + [w] && Files(AddArg(c, w)) == Files(c)
  {
    if c.Redir? {
      AddArgLast(c.cmd, w);
    }
  }

  lemma PlainFirst(t: seq<Tok>, after: bool)
    requires t != []
    ensures PlainWords(t, after) == (if t[0].Word? && !after then [t[0]] else []) + PlainWords(t[1..], IsRedir(t[0]))
  {
  }

  lemma {:induction false} PlainOfTwo(a: seq<Tok>, b: seq<Tok>, after: bool)
    requires a != []
    ensures PlainWords(a + b, after) == PlainWords(a, after) + PlainWords(b, IsRedir(a[|a| - 1]))
  {
    hide PlainWords, IsRedir;
    var rest := a[1..];
    assert (a + b)[1..] == rest + b && (a + b)[0] == a[0];
    PlainFirst(a + b, after);
    PlainFirst(a, after);
    if rest == [] {
      assert rest + b == b;
      NoWords();
    } else {
      PlainOfTwo(rest, b, IsRedir(a[0]));
    }
  }

  lemma OpeningsFirst(t: seq<Tok>)
    requires |t| >= 2
    ensures Openings(t) == (if IsRedir(t[0]) && t[1].Word? then [Opens(t[0], t[1])] else []) + Openings(t[1..])
  {
  }

  lemma OpeningsShort(t: seq<Tok>)
    requires |t| < 2
    ensures Openings(t) == []
  {
  }

  lemma {:induction false} OpeningsOfTwo(a: seq<Tok>, b: seq<Tok>)
    requires a != [] && (b == [] || !b[0].Word? || !IsRedir(a[|a| - 1]))
    ensures Openings(a + b) == Openings(a) + Openings(b)
  {
    hide Openings, Opens, IsRedir;
    var rest := a[1..];
    if b == [] {
      assert a + b == a;
      OpeningsShort(b);
    } else {
      assert (a + b)[1..] == rest + b && (a + b)[0] == a[0];
      OpeningsFirst(a + b);
      if rest == [] {
        assert rest + b == b;
        OpeningsShort(a);
      } else {
        OpeningsFirst(a);
        OpeningsOfTwo(rest, b);
        assert (a + b)[1] == a[1];
      }
    }
  }

  lemma {:induction false} RedirectLast(c: Cmd, symbol: Tok, file: Tok)
    ensures Args(Redirect(c, symbol, file)) == Args(c)
    ensures Files(Redirect(c, symbol, file)) == Files(c) + [Opens(symbol, file)]
    ensures Spine(c) ==> Spine(Redirect(c, symbol, file))
  {
  }

  lemma {:induction false} WordFirst(t: seq<Tok>)
    requires t != [] && t[0].Word?
    ensures PlainWords(t, false) == [t[0]] + PlainWords(t[1..], false) && Openings(t) == Openings(t[1..])
  {
  }

  lemma {:induction false} PairFirst(t: seq<Tok>)
    requires |t| >= 2 && IsRedir(t[0]) && t[1].Word?
    ensures PlainWords(t, false) == PlainWords(t[2..], false)
    ensures Openings(t) == [Opens(t[0], t[1])] + Openings(t[2..])
  {
    var u := t[1..];
    assert u[0] == t[1] && u[1..] == t[2..];
    assert PlainWords(t, false) == PlainWords(u, true);
    assert PlainWords(u, true) == PlainWords(t[2..], false);
    OpeningsFromWord(u);
  }

  lemma {:induction false} SimpleOrder(c0: Cmd, n: nat, t: seq<Tok>, c: Cmd)
    requires Simple(c0, n, t, c) && Spine(c0)
    ensures Spine(c) && Args(c) == Args(c0) + PlainWords(t, false) && Files(c) == Files(c0) + Openings(t)
    decreases |t|
  {
    hide PlainWords, Openings, Args, Files, AddArg, Redirect, Spine, Opens;
    if t == [] {
      NoWords();
    } else if t[0].Word? {
      AddArgLast(c0, t[0]);
      SimpleOrder(AddArg(c0, t[0]), n + 1, t[1..], c);
      WordFirst(t);
    } else {
      RedirectLast(c0, t[0], t[1]);
      SimpleOrder(Redirect(c0, t[0], t[1]), n, t[2..], c);
      PairFirst(t);
    }
  }

  lemma OpeningsFromWord(t: seq<Tok>)
    requires t != [] && !IsRedir(t[0])
    ensures Openings(t) == Openings(t[1..])
  {
  }

  /** A simple command: its arguments are the words that follow no redirection symbol, its files the pairs of symbol and
      word, both in the order of the line. */
  lemma {:induction false} SimpleInOrder(t: seq<Tok>, c: Cmd)
    requires Simple(Exec([]), 0, t, c)
    ensures Spine(c) && Args(c) == PlainWords(t, false) && Files(c) == Openings(t)
  {
    SimpleOrder(Exec([]), 0, t, c);
  }

  /** Words and redirection symbols, and a word behind each symbol. */
  ghost predicate Paired(t: seq<Tok>) {
    forall i: nat :: i < |t| ==> PairedAt(t, i)
  }

  predicate PairedAt(t: seq<Tok>, i: nat)
    requires i < |t|
  {
    t[i].Word? || (IsRedir(t[i]) && i + 1 < |t| && t[i + 1].Word?)
  }

  lemma {:induction false} PairedWord(t: seq<Tok>)
    requires t != [] && t[0].Word?
    ensures Paired(t) <==> Paired(t[1..])
  {
    var u := t[1..];
    forall i: nat | i < |u|
      ensures PairedAt(u, i) <==> PairedAt(t, i + 1)
    {
    }
    if Paired(u) {
      forall i: nat | i < |t|
        ensures PairedAt(t, i)
      {
        assert i == 0 || PairedAt(u, i - 1);
      }
    } else {
      var i: nat :| i < |u| && !PairedAt(u, i);
      assert !PairedAt(t, i + 1);
    }
  }

  lemma {:induction false} PairedPair(t: seq<Tok>)
    requires |t| >= 2 && IsRedir(t[0]) && t[1].Word?
    ensures Paired(t) <==> Paired(t[2..])
  {
    var u := t[2..];
    forall i: nat | i < |u|
      ensures PairedAt(u, i) <==> PairedAt(t, i + 2)
    {
    }
    if Paired(u) {
      forall i: nat | i < |t|
        ensures PairedAt(t, i)
      {
        assert i < 2 || PairedAt(u, i - 2);
      }
    } else {
      var i: nat :| i < |u| && !PairedAt(u, i);
      assert !PairedAt(t, i + 2);
    }
  }

  lemma {:induction false} SimpleNeeds(c0: Cmd, n: nat, t: seq<Tok>, c: Cmd)
    requires Simple(c0, n, t, c)
    ensures Paired(t) && (n < 10 ==> n + |PlainWords(t, false)| < 10)
    decreases |t|
  {
    hide PlainWords, AddArg, Redirect;
    if t == [] {
      NoWords();
    } else if t[0].Word? {
      SimpleNeeds(AddArg(c0, t[0]), n + 1, t[1..], c);
      PairedWord(t);
      WordFirst(t);
    } else {
      SimpleNeeds(Redirect(c0, t[0], t[1]), n, t[2..], c);
      PairedPair(t);
      PairFirst(t);
    }
  }

  lemma {:induction false} SimpleMade(c0: Cmd, n: nat, t: seq<Tok>) returns (c: Cmd)
    requires Paired(t) && n + |PlainWords(t, false)| < 10
    ensures Simple(c0, n, t, c)
    decreases |t|
  {
    hide PlainWords, AddArg, Redirect;
    if t == [] {
      c := c0;
    } else if t[0].Word? {
      PairedWord(t);
      WordFirst(t);
      c := SimpleMade(AddArg(c0, t[0]), n + 1, t[1..]);
    } else {
      assert PairedAt(t, 0);
      PairedPair(t);
      PairFirst(t);
      c := SimpleMade(Redirect(c0, t[0], t[1]), n, t[2..]);
    }
  }

  /** A list of tokens is a simple command exactly when each redirection symbol has its word, nothing else stands
      there, and there are nine arguments at most: the tenth place of argv is for the null pointer. */
  lemma {:induction false} SimpleIff(t: seq<Tok>)
    ensures (exists c :: Simple(Exec([]), 0, t, c)) <==> Paired(t) && |PlainWords(t, false)| <= 9
  {
    if c :| Simple(Exec([]), 0, t, c) {
      SimpleNeeds(Exec([]), 0, t, c);
    }
    if Paired(t) && |PlainWords(t, false)| <= 9 {
      var c := SimpleMade(Exec([]), 0, t);
    }
  }

  lemma {:induction false} RedirsOrder(c0: Cmd, t: seq<Tok>, c: Cmd)
    requires Redirs(c0, t, c)
    ensures Args(c) == Args(c0) && PlainWords(t, false) == [] && Files(c) == Files(c0) + Openings(t)
    decreases |t|
  {
    hide PlainWords, Openings, Args, Files, Redirect, Opens;
    if t == [] {
      NoWords();
    } else {
      RedirectLast(c0, t[0], t[1]);
      RedirsOrder(Redirect(c0, t[0], t[1]), t[2..], c);
      PairFirst(t);
    }
  }

  /** The parts of a line around a symbol that is no redirection. */
  lemma {:induction false} AroundSymbol(a: seq<Tok>, x: Tok, b: seq<Tok>)
    requires x.Sym? && !IsRedir(x)
    ensures PlainWords(a + [x] + b, false) == PlainWords(a, false) + PlainWords(b, false)
    ensures Openings(a + [x] + b) == Openings(a) + Openings(b)
  {
    var r := [x] + b;
    assert a + [x] + b == a + r && r[1..] == b;
    OpeningsFromWord(r);
    if a == [] {
      assert a + r == r;
    } else {
      PlainOfTwo(a, r, false);
      OpeningsOfTwo(a, r);
      assert PlainWords(r, IsRedir(a[|a| - 1])) == PlainWords(b, false);
    }
  }

  lemma {:induction false} ElementOrder(t: seq<Tok>, c: Cmd)
    requires Element(t, c)
    ensures Args(c) == PlainWords(t, false) && Files(c) == Openings(t)
    decreases |t|, 1
  {
    hide Simple, Redirs, Line, PlainWords, Openings;
    if Starts(t, '(') {
      var k, c0 := BlockOf(t, c);
      var u, v := t[1..k], t[k + 1..];
      LineOrder(u, c0);
      RedirsOrder(c0, v, c);
      assert t == ([] + [t[0]] + u) + [t[k]] + v;
      AroundSymbol([] + [t[0]] + u, t[k], v);
      AroundSymbol([], t[0], u);
      NoWords();
    } else {
      SimpleInOrder(t, c);
    }
  }

  lemma NoWords()
    ensures PlainWords([], false) == [] && PlainWords([], true) == [] && Openings([]) == []
  {
  }

  lemma {:induction false} PipelineOrder(t: seq<Tok>, c: Cmd)
    requires Pipeline(t, c)
    ensures Args(c) == PlainWords(t, false) && Files(c) == Openings(t)
    decreases |t|, 3
  {
    hide PlainWords, Openings, Element;
    if Element(t, c) {
      ElementOrder(t, c);
    } else {
      var k: nat :| PipeAt(t, k, c.left, c.right);
      ElementOrder(t[..k], c.left);
      PipelineOrder(t[k + 1..], c.right);
      assert t == t[..k] + [t[k]] + t[k + 1..];
      AroundSymbol(t[..k], t[k], t[k + 1..]);
    }
  }

  lemma {:induction false} JobsOrder(t: seq<Tok>, c: Cmd)
    requires Jobs(t, c)
    ensures Args(c) == PlainWords(t, false) && Files(c) == Openings(t)
    decreases |t|, 4
  {
    hide PlainWords, Openings, Pipeline;
    if t != [] && t[|t| - 1] == Sym('&') {
      var u := t[..|t| - 1];
      JobsOrder(u, c.cmd);
      assert t == u + [t[|t| - 1]] + [];
      AroundSymbol(u, t[|t| - 1], []);
      NoWords();
    } else {
      PipelineOrder(t, c);
    }
  }

  /** A whole line: the arguments of its programs, from left to right, are its words that follow no redirection symbol,
      and its redirections are its pairs of symbol and word, all in the order of the line. */
  lemma {:induction false} LineOrder(t: seq<Tok>, c: Cmd)
    requires Line(t, c)
    ensures Args(c) == PlainWords(t, false) && Files(c) == Openings(t)
    decreases |t|, 6
  {
    hide PlainWords, Openings, Jobs;
    if Jobs(t, c) {
      JobsOrder(t, c);
    } else {
      var k: nat :| ListAt(t, k, c.left, c.right);
      JobsOrder(t[..k], c.left);
      LineOrder(t[k + 1..], c.right);
      assert t == t[..k] + [t[k]] + t[k + 1..];
      AroundSymbol(t[..k], t[k], t[k + 1..]);
    }
  }
}
