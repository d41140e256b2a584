/** sh.c: the tokens of a command line. The line ends where its first NUL is. */
module ShTokens {
  /** A symbol, `>>`, or a word with its first position and the position behind its last. */
  datatype Tok = Sym(c: char) | Append | Word(lo: nat, hi: nat)

  predicate IsSpace(c: char) {
    c == ' ' || c == '\t' || c == '\r' || c == '\n' || c == 11 as char
  }

  predicate IsSymbol(c: char) {
    c in "<|>&;()"
  }

  function SkipSpace(b: string, i: nat): (j: nat)
    requires i <= |b|
    ensures i <= j <= |b| && (j < |b| ==> !IsSpace(b[j])) && forall k :: i <= k < j ==> IsSpace(b[k])
    decreases |b| - i
  {
    if i < |b| && IsSpace(b[i]) then SkipSpace(b, i + 1) else i
  }

  function WordEnd(b: string, i: nat): (j: nat)
    requires i <= |b|
    ensures i <= j <= |b| && (j < |b| ==> IsSpace(b[j]) || IsSymbol(b[j]))
    ensures forall k :: i <= k < j ==> !IsSpace(b[k]) && !IsSymbol(b[k])
    decreases |b| - i
  {
    if i < |b| && !IsSpace(b[i]) && !IsSymbol(b[i]) then WordEnd(b, i + 1) else i
  }

  function TokenEnd(b: string, i: nat): (j: nat)
    requires i < |b| && !IsSpace(b[i])
    ensures i < j <= |b|
  {
    if b[i] == '>' && i + 1 < |b| && b[i + 1] == '>' then i + 2
    else if IsSymbol(b[i]) then i + 1
    else WordEnd(b, i)
  }

  function TokenAt(b: string, i: nat): Tok
    requires i < |b| && !IsSpace(b[i])
  {
    if b[i] == '>' && i + 1 < |b| && b[i + 1] == '>' then Append
    else if IsSymbol(b[i]) then Sym(b[i])
    else Word(i, WordEnd(b, i))
  }

  /** The tokens from position `i` on. */
  function Lex(b: string, i: nat): seq<Tok>
    requires i <= |b|
    decreases |b| - i
  {
    var s := SkipSpace(b, i);
    if s == |b| then [] else [TokenAt(b, s)] + Lex(b, TokenEnd(b, s))
  }

  lemma {:induction false} SpaceDoesNotMatter(b: string, i: nat)
    requires i <= |b|
    ensures SkipSpace(b, SkipSpace(b, i)) == SkipSpace(b, i)
    ensures Lex(b, SkipSpace(b, i)) == Lex(b, i)
  {
  }

  /** A word is not empty, has no space and no symbol in it, and ends before one or at the end. */
  ghost predicate IsWord(b: string, t: Tok) {
    && t.Word? && t.lo < t.hi <= |b|
    && (forall k :: t.lo <= k < t.hi ==> !IsSpace(b[k]) && !IsSymbol(b[k]))
    && (t.hi < |b| ==> IsSpace(b[t.hi]) || IsSymbol(b[t.hi]))
  }

  lemma {:induction false} LexWords(b: string, i: nat, t: Tok)
    requires i <= |b| && t in Lex(b, i) && t.Word?
    ensures IsWord(b, t)
    decreases |b| - i
  {
    var s := SkipSpace(b, i);
    if t != TokenAt(b, s) {
      LexWords(b, TokenEnd(b, s), t);
    }
  }

  /** The characters from `s` to `e` spell token `t`, as long as it can be. */
  ghost predicate Spells(b: string, s: nat, e: nat, t: Tok) {
    && s < e <= |b|
    && match t
       case Sym(c) => b[s..e] == [c] && c in "<|>&;()" && (c == '>' && e < |b| ==> b[e] != '>')
       case Append => b[s..e] == ">>"
       case Word(lo, hi) => lo == s && hi == e && IsWord(b, t)
  }

  /** From position `i` on the text is spaces and the tokens, in order. */
  ghost predicate Spelled(b: string, i: nat, ts: seq<Tok>)
    decreases |ts|
  {
    if ts == [] then i <= |b| && forall k :: i <= k < |b| ==> IsSpace(b[k])
    else exists s: nat, e: nat :: SpelledFrom(b, i, s, e, ts)
  }

  ghost predicate SpelledFrom(b: string, i: nat, s: nat, e: nat, ts: seq<Tok>)
    requires ts != []
    decreases |ts|, 0
  {
    i <= s && Spells(b, s, e, ts[0]) && (forall k :: i <= k < s ==> IsSpace(b[k])) && Spelled(b, e, ts[1..])
  }

  lemma FirstSpelled(b: string, i: nat, ts: seq<Tok>) returns (s: nat, e: nat)
    requires Spelled(b, i, ts) && ts != []
    ensures SpelledFrom(b, i, s, e, ts)
  {
    s, e :| SpelledFrom(b, i, s, e, ts);
  }

  lemma {:induction false} SpellsToken(b: string, s: nat, e: nat, t: Tok)
    requires Spells(b, s, e, t)
    ensures !IsSpace(b[s]) && TokenAt(b, s) == t && TokenEnd(b, s) == e
  {
    assert b[s..e][0] == b[s];
    if t.Append? {
      assert b[s..e][1] == b[s + 1];
    }
  }

  lemma {:induction false} TokenSpells(b: string, s: nat)
    requires s < |b| && !IsSpace(b[s])
    ensures Spells(b, s, TokenEnd(b, s), TokenAt(b, s))
  {
    var t, e := TokenAt(b, s), TokenEnd(b, s);
    if t.Append? {
      assert b[s..e] == [b[s], b[s + 1]];
    } else if t.Sym? {
      assert b[s..e] == [b[s]];
    }
  }

  lemma {:induction false} SpacesSkipped(b: string, i: nat, s: nat)
    requires i <= s <= |b| && (forall k :: i <= k < s ==> IsSpace(b[k])) && (s < |b| ==> !IsSpace(b[s]))
    ensures SkipSpace(b, i) == s
    decreases s - i
  {
    if i < s {
      SpacesSkipped(b, i + 1, s);
    }
  }

  /** The tokens of a text are the only ones that spell it. */
  lemma {:induction false} LexIff(b: string, i: nat, ts: seq<Tok>)
    requires i <= |b|
    ensures Spelled(b, i, ts) <==> ts == Lex(b, i)
    decreases |b| - i
  {
    hide TokenAt, TokenEnd, Spells, IsSpace;
    var s := SkipSpace(b, i);
    if s < |b| {
      TokenSpells(b, s);
      var t, e := TokenAt(b, s), TokenEnd(b, s);
      var rest := Lex(b, e);
      LexIff(b, e, rest);
      if ts == Lex(b, i) {
        assert ts[1..] == rest;
        assert SpelledFrom(b, i, s, e, ts);
      }
      if Spelled(b, i, ts) && ts != [] {
        var s1, e1 := FirstSpelled(b, i, ts);
        SpellsToken(b, s1, e1, ts[0]);
        SpacesSkipped(b, i, s1);
        LexIff(b, e, ts[1..]);
      }
    } else if ts != [] && Spelled(b, i, ts) {
      var s1, e1 := FirstSpelled(b, i, ts);
      SpellsToken(b, s1, e1, ts[0]);
      SpacesSkipped(b, i, s1);
    }
  }

  /** What gettoken returns for a token. */
  function Kind(t: Tok): char {
    match t
    case Sym(c) => c
    case Append => '+'
    case Word(_, _) => 'a'
  }

  /** The character that peek looks at. */
  function First(b: string, t: Tok): char {
    match t
    case Sym(c) => c
    case Append => '>'
    case Word(lo, _) => if lo < |b| then b[lo] else ' '
  }

  const NUL := 0 as char

  /** `while(s < es && strchr(whitespace, *s)) s++`. */
  method Skip(b: string, ps: nat) returns (s: nat)
    requires ps <= |b|
    ensures s == SkipSpace(b, ps)
  {
    hide IsSpace;
    s := ps;
    while s < |b| && IsSpace(b[s])
      invariant ps <= s <= |b| && SkipSpace(b, s) == SkipSpace(b, ps)
    {
      s := s + 1;
    }
  }

  method GetToken(b: string, ps: nat) returns (ret: char, q: nat, eq: nat, next: nat)
    requires ps <= |b|
    ensures ps <= next <= |b|
    ensures Lex(b, ps) == [] ==> ret == NUL && next == |b| && Lex(b, next) == []
    ensures Lex(b, ps) != [] ==>
      && var t := Lex(b, ps)[0];
      && ps < next && Lex(b, ps) == [t] + Lex(b, next) && ret == Kind(t) && (t.Word? ==> t == Word(q, eq))
  {
    hide IsSpace, SkipSpace;
    var s := Skip(b, ps);
    q := s;
    if s == |b| {
      ret := NUL;
    } else {
      ret := b[s];
      if b[s] == '>' {
        s := s + 1;
        if s < |b| && b[s] == '>' {
          ret := '+';
          s := s + 1;
        }
      } else if IsSymbol(b[s]) {
        s := s + 1;
      } else {
        ret := 'a';
        while s < |b| && !IsSpace(b[s]) && !IsSymbol(b[s])
          invariant q <= s <= |b| && WordEnd(b, s) == WordEnd(b, q)
        {
          s := s + 1;
        }
      }
    }
    eq := s;
    next := Skip(b, eq);
    SpaceDoesNotMatter(b, eq);
  }

  method Peek(b: string, ps: nat, toks: string) returns (found: bool, next: nat)
    requires ps <= |b|
    ensures ps <= next <= |b| && Lex(b, next) == Lex(b, ps) && (next == |b| <==> Lex(b, ps) == [])
    ensures found <==> Lex(b, ps) != [] && First(b, Lex(b, ps)[0]) in toks
  {
    hide IsSpace;
    next := Skip(b, ps);
    SpaceDoesNotMatter(b, ps);
    found := next < |b| && b[next] in toks;
  }

  /** The symbols are the first characters of the tokens they name, and of no others. */
  lemma {:induction false} FirstSymbol(b: string, i: nat, t: Tok)
    requires i <= |b| && t in Lex(b, i)
    ensures t.Word? ==> !IsSymbol(First(b, t))
    ensures t.Sym? ==> IsSymbol(t.c)
    decreases |b| - i
  {
    var s := SkipSpace(b, i);
    if t != TokenAt(b, s) {
      FirstSymbol(b, TokenEnd(b, s), t);
    }
  }
}
