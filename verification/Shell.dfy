/** The parser of src/sh.c on a NUL-terminated line, with the cursor that its functions share. */
module Shell {
  import opened ShellGrammar
  import opened ShellWords
  import opened ShellLex

  const NUL: char := 0 as char

  datatype Option<T> = None | Some(value: T)

  type Tree = Cmd<Place>

  // The first token, as the characters at its start show it.
  lemma FirstToken(s: string, i: nat, toks: string)
    requires i <= |s| && forall k | 0 <= k < |toks| :: Symbol(toks[k])
    ensures var j := Skip(s, i); Next(Lex(s, i), toks) <==> j < |s| && s[j] in toks
  {
    var j := Skip(s, i);
    if j < |s| {
      assert Lex(s, i)[0] == TokenAt(s, j);
    }
  }

  lemma RestTokens(s: string, i: nat)
    requires i <= |s| && Skip(s, i) < |s|
    ensures var j := Skip(s, i); var e := TokenEnd(s, j);
      && Lex(s, i) != [] && Lex(s, i)[0] == TokenAt(s, j)
      && Lex(s, Skip(s, e)) == Lex(s, i)[1..]
  {
    var e := TokenEnd(s, Skip(s, i));
    LexSkip(s, e, Skip(s, e));
  }

  /** A method's result and what it leaves are what the grammar says. */
  predicate Agrees(spec: Parsed<Place>, r: Option<Tree>, left: seq<Token<Place>>) {
    match spec
    case Panic => r.None?
    case Ok(cmd, rest) => r == Some(cmd) && left == rest
  }

  predicate AgreesRedirs(spec: Redirs<Place>, before: seq<Redirection<Place>>, ok: bool,
                         rs: seq<Redirection<Place>>, left: seq<Token<Place>>) {
    match spec
    case NoFile => !ok
    case Rs(more, rest) => ok && rs == before + more && left == rest
  }

  lemma NoTokens(s: string, i: nat)
    requires i <= |s|
    ensures Skip(s, i) == |s| <==> Lex(s, i) == []
  {
  }

  // ----- terminating the words -----

  /** The positions after the words of a tree. */
  function Ends(c: Tree): set<nat> {
    match c
    case Exec(argv) => set i | 0 <= i < |argv| :: argv[i].eq
    case Redir(c, r) => Ends(c) + {r.file.eq}
    case Pipe(l, r) => Ends(l) + Ends(r)
    case List(l, r) => Ends(l) + Ends(r)
    case Back(c) => Ends(c)
  }

  /** A C string at q with the text w. */
  ghost predicate ReadsAs(buf: seq<char>, q: nat, w: string) {
    q + |w| < |buf| && buf[q..q + |w|] == w && buf[q + |w|] == NUL && NUL !in w
  }

  /** Every word of the tree reads as its text. */
  ghost predicate AllRead(c: Tree, buf: seq<char>, line: string) {
    match c
    case Exec(argv) => forall i | 0 <= i < |argv| :: ReadsAs(buf, argv[i].q, Text(line, argv[i]))
    case Redir(c, r) => AllRead(c, buf, line) && ReadsAs(buf, r.file.q, Text(line, r.file))
    case Pipe(l, r) => AllRead(l, buf, line) && AllRead(r, buf, line)
    case List(l, r) => AllRead(l, buf, line) && AllRead(r, buf, line)
    case Back(c) => AllRead(c, buf, line)
  }

  /** The line with its NUL and with more NULs at some positions. */
  ghost predicate Terminated(buf: seq<char>, line: string, ends: set<nat>) {
    && |buf| == |line| + 1 && NUL !in line
    && forall k | 0 <= k < |buf| :: buf[k] == if k == |line| || k in ends then NUL else line[k]
  }

  /** Positions that are ends of words of the line. */
  ghost predicate WordEnds(ends: set<nat>, line: string) {
    forall e | e in ends :: exists a :: 0 <= a < |Lex(line, 0)| && Lex(line, 0)[a].Word? && Lex(line, 0)[a].w.eq == e
  }

  // No terminator lands inside a word.
  lemma WordReads(buf: seq<char>, line: string, ends: set<nat>, p: Place)
    requires Terminated(buf, line, ends) && WordEnds(ends, line) && Word(p) in Lex(line, 0) && p.eq in ends
    ensures ReadsAs(buf, p.q, Text(line, p))
  {
    hide Lex;
    var ts := Lex(line, 0);
    var b :| 0 <= b < |ts| && ts[b] == Word(p);
    WordsApart(line, 0, b, b);
    forall k | p.q <= k < p.eq ensures k !in ends {
      if k in ends {
        var a :| 0 <= a < |ts| && ts[a].Word? && ts[a].w.eq == k;
        WordsApart(line, 0, a, b);
      }
    }
    var w := Text(line, p);
    assert buf[p.q..p.q + |w|] == w;
  }

  lemma {:induction false} TreeReads(c: Tree, buf: seq<char>, line: string, ends: set<nat>)
    requires Drawn(c, Lex(line, 0)) && Ends(c) <= ends && Terminated(buf, line, ends) && WordEnds(ends, line)
    ensures AllRead(c, buf, line)
  {
    hide Terminated, WordEnds, Lex, ReadsAs, Text;
    match c
    case Exec(argv) =>
      forall i | 0 <= i < |argv| ensures ReadsAs(buf, argv[i].q, Text(line, argv[i])) {
        assert argv[i].eq in Ends(c);
        WordReads(buf, line, ends, argv[i]);
      }
    case Redir(d, r) =>
      TreeReads(d, buf, line, ends);
      WordReads(buf, line, ends, r.file);
    case Pipe(l, r) =>
      TreeReads(l, buf, line, ends);
      TreeReads(r, buf, line, ends);
    case List(l, r) =>
      TreeReads(l, buf, line, ends);
      TreeReads(r, buf, line, ends);
    case Back(d) => TreeReads(d, buf, line, ends);
  }

  lemma {:induction false} EndsAreEnds(c: Tree, line: string)
    requires Drawn(c, Lex(line, 0))
    ensures WordEnds(Ends(c), line) && forall e | e in Ends(c) :: e <= |line|
  {
    var ts := Lex(line, 0);
    match c
    case Exec(argv) =>
      forall e | e in Ends(c) ensures e <= |line| && exists a :: 0 <= a < |ts| && ts[a].Word? && ts[a].w.eq == e {
        var i :| 0 <= i < |argv| && argv[i].eq == e;
        EndIsEnd(argv[i], line);
      }
    case Redir(d, r) =>
      EndsAreEnds(d, line);
      EndIsEnd(r.file, line);
    case Pipe(l, r) =>
      EndsAreEnds(l, line);
      EndsAreEnds(r, line);
    case List(l, r) =>
      EndsAreEnds(l, line);
      EndsAreEnds(r, line);
    case Back(d) => EndsAreEnds(d, line);
  }

  lemma EndIsEnd(p: Place, line: string)
    requires Word(p) in Lex(line, 0)
    ensures p.eq <= |line| && exists a :: 0 <= a < |Lex(line, 0)| && Lex(line, 0)[a].Word? && Lex(line, 0)[a].w.eq == p.eq
  {
    var a :| 0 <= a < |Lex(line, 0)| && Lex(line, 0)[a] == Word(p);
    WordsApart(line, 0, a, a);
  }

  class Parser {
    const buf: array<char>
    const es: nat
    var pos: nat

    ghost predicate Valid()
      reads this, buf
    {
      es < buf.Length && pos <= es && buf[es] == NUL && NUL !in buf[..es]
    }

    ghost function Line(): string
      requires es < buf.Length
      reads buf
    {
      buf[..es]
    }

    /** The tokens that are left. */
    ghost function Left(): seq<Token<Place>>
      requires Valid()
      reads this, buf
    {
      Lex(Line(), pos)
    }

    constructor (line: string)
      requires NUL !in line
      ensures Valid() && Line() == line && pos == 0 && fresh(buf)
    {
      buf := new char[|line| + 1](i => if 0 <= i < |line| then line[i] else NUL);
      es := |line|;
      pos := 0;
      new;
      assert buf[..es] == line;
    }

    method SkipWhite(i: nat) returns (j: nat)
      requires Valid() && i <= es
      ensures j == Skip(Line(), i)
    {
      j := i;
      while j < es && White(buf[j])
        invariant i <= j <= es && Skip(Line(), i) == Skip(Line(), j)
      {
        j := j + 1;
      }
    }

    method Peek(toks: string) returns (b: bool)
      requires Valid() && forall k | 0 <= k < |toks| :: Symbol(toks[k])
      modifies this`pos
      ensures Valid() && b == Next(old(Left()), toks) && Left() == old(Left()) && pos == Skip(Line(), old(pos))
    {
      FirstToken(Line(), pos, toks);
      LexSkip(Line(), pos, Skip(Line(), pos));
      pos := SkipWhite(pos);
      b := buf[pos] != NUL && buf[pos] in toks;
      assert pos < es ==> buf[pos] == Line()[pos];
    }

    method ScanWord(i: nat) returns (j: nat)
      requires Valid() && i <= es
      ensures j == WordEnd(Line(), i)
    {
      j := i;
      while j < es && !White(buf[j]) && !Symbol(buf[j])
        invariant i <= j <= es && WordEnd(Line(), i) == WordEnd(Line(), j)
      {
        j := j + 1;
      }
    }

    /** The next token, or None at the end of the line. */
    method GetToken() returns (tok: Option<Token<Place>>)
      requires Valid()
      modifies this`pos
      ensures Valid()
      ensures tok.None? <==> old(Left()) == []
      ensures tok.None? ==> Left() == []
      ensures tok.Some? ==> tok.value == old(Left())[0] && Left() == old(Left())[1..]
    {
      hide Lex, TokenAt, TokenEnd;
      ghost var line := Line();
      var s := SkipWhite(pos);
      NoTokens(line, pos);
      if buf[s] == NUL {
        LexSkip(line, pos, s);
        pos := SkipWhite(s);
        return None;
      }
      RestTokens(line, pos);
      var t, e := ScanToken(s);
      tok := Some(t);
      pos := SkipWhite(e);
    }

    /** The token that starts at q, and the position after it. */
    method ScanToken(q: nat) returns (tok: Token<Place>, s: nat)
      requires Valid() && q < es && !White(Line()[q])
      ensures tok == TokenAt(Line(), q) && s == TokenEnd(Line(), q)
    {
      s := q;
      var c := buf[q];
      assert c == Line()[q];
      if c == '|' || c == '(' || c == ')' || c == ';' || c == '&' || c == '<' {
        s := s + 1;
        tok := Sym(c);
      } else if c == '>' {
        s := s + 1;
        tok := Sym('>');
        assert s < es ==> buf[s] == Line()[s];
        if buf[s] == '>' {
          tok := Append;
          s := s + 1;
        }
      } else {
        s := ScanWord(s);
        tok := Word(Place(q, s));
      }
    }

    /** Appends the redirections that come next to rs. */
    method ParseRedirs(before: seq<Redirection<Place>>) returns (ok: bool, rs: seq<Redirection<Place>>)
      requires Valid()
      modifies this`pos
      ensures Valid() && AgreesRedirs(ShellGrammar.ParseRedirs(old(Left())), before, ok, rs, Left())
    {
      hide Lex, Skip;
      rs := before;
      ghost var spec := ShellGrammar.ParseRedirs(Left());
      while true
        invariant Valid() && |Left()| <= |old(Left())|
        invariant match ShellGrammar.ParseRedirs(Left())
                  case NoFile => spec.NoFile?
                  case Rs(more, rest) => spec.Rs? && before + spec.rs == rs + more && spec.left == rest
        decreases |Left()|
      {
        var more := Peek("<>");
        if !more {
          return true, rs;
        }
        var tok := GetToken();
        var file := GetToken();
        if file.None? || !file.value.Word? {
          return false, rs;
        }
        rs := rs + [Direction(tok.value, file.value.w)];
      }
    }

    method ParseExec() returns (r: Option<Tree>)
      requires Valid()
      modifies this`pos
      ensures Valid() && Agrees(ShellGrammar.ParseExec(old(Left())), r, Left())
      decreases |Left()|, 0
    {
      hide Lex, Skip;
      var block := Peek("(");
      if block {
        r := ParseBlock();
        return;
      }
      ghost var redirs := ShellGrammar.ParseRedirs(Left());
      var ok, rs := ParseRedirs([]);
      if !ok {
        return None;
      }
      assert [] + redirs.rs == redirs.rs;
      var argv: seq<Place> := [];
      ghost var spec := ShellGrammar.ParseArgs([], rs, Left());
      while true
        invariant Valid() && spec == ShellGrammar.ParseArgs(argv, rs, Left())
        decreases |Left()|
      {
        var done := Peek("|)&;");
        if done {
          break;
        }
        var tok := GetToken();
        if tok.None? {
          break;
        }
        if !tok.value.Word? {
          return None;
        }
        argv := argv + [tok.value.w];
        if |argv| >= MAXARGS {
          return None;
        }
        ok, rs := ParseRedirs(rs);
        if !ok {
          return None;
        }
      }
      r := Some(Wrap(Exec(argv), rs));
    }

    method ParseBlock() returns (r: Option<Tree>)
      requires Valid() && Left() != []
      modifies this`pos
      ensures Valid()
      ensures if Next(old(Left()), "(") then Agrees(ShellGrammar.ParseBlock(old(Left())), r, Left()) else r.None?
      decreases |Left()| - 1, 5
    {
      hide Lex, Skip;
      var open := Peek("(");
      if !open {
        return None;
      }
      var tok := GetToken();
      r := ParseLine();
      if r.None? {
        return;
      }
      var close := Peek(")");
      if !close {
        return None;
      }
      tok := GetToken();
      ghost var redirs := ShellGrammar.ParseRedirs(Left());
      var ok, rs := ParseRedirs([]);
      if !ok {
        return None;
      }
      assert [] + redirs.rs == redirs.rs;
      r := Some(Wrap(r.value, rs));
    }

    method ParsePipe() returns (r: Option<Tree>)
      requires Valid()
      modifies this`pos
      ensures Valid() && Agrees(ShellGrammar.ParsePipe(old(Left())), r, Left())
      decreases |Left()|, 1
    {
      hide Lex, Skip;
      r := ParseExec();
      if r.None? {
        return;
      }
      var more := Peek("|");
      if more {
        var tok := GetToken();
        var right := ParsePipe();
        if right.None? {
          return None;
        }
        r := Some(Pipe(r.value, right.value));
      }
    }

    method ParseLine() returns (r: Option<Tree>)
      requires Valid()
      modifies this`pos
      ensures Valid() && Agrees(ShellGrammar.ParseLine(old(Left())), r, Left())
      decreases |Left()|, 2
    {
      hide Lex, Skip;
      r := ParsePipe();
      if r.None? {
        return;
      }
      var cmd := r.value;
      ghost var spec := ParseBacks(cmd, Left());
      var more := Peek("&");
      while more
        invariant Valid() && spec == ParseBacks(cmd, Left()) && more == Next(Left(), "&")
        invariant |Left()| <= |old(Left())|
        decreases |Left()|
      {
        var tok := GetToken();
        cmd := Back(cmd);
        more := Peek("&");
      }
      r := Some(cmd);
      var list := Peek(";");
      if list {
        var tok := GetToken();
        var right := ParseLine();
        if right.None? {
          return None;
        }
        r := Some(List(cmd, right.value));
      }
    }

    /** Writes a NUL behind every word of the tree. */
    method NulTerminate(cmd: Tree)
      requires forall e | e in Ends(cmd) :: e < buf.Length
      modifies buf
      ensures forall k | 0 <= k < buf.Length :: buf[k] == if k in Ends(cmd) then NUL else old(buf[k])
      decreases cmd
    {
      match cmd
      case Exec(argv) =>
        for i := 0 to |argv|
          invariant forall k | 0 <= k < buf.Length ::
            buf[k] == if (exists j :: 0 <= j < i && argv[j].eq == k) then NUL else old(buf[k])
        {
          assert argv[i].eq in Ends(cmd);
          buf[argv[i].eq] := NUL;
        }
      case Redir(c, r) =>
        assert Ends(cmd) == Ends(c) + {r.file.eq};
        NulTerminate(c);
        buf[r.file.eq] := NUL;
      case Pipe(l, r) =>
        assert Ends(cmd) == Ends(l) + Ends(r);
        NulTerminate(l);
        NulTerminate(r);
      case List(l, r) =>
        assert Ends(cmd) == Ends(l) + Ends(r);
        NulTerminate(l);
        NulTerminate(r);
      case Back(c) =>
        assert Ends(cmd) == Ends(c);
        NulTerminate(c);
    }

    /** Parses the whole line; afterwards every word of the tree is a C string in the buffer. */
    method ParseCmd() returns (r: Option<Tree>)
      requires Valid() && pos == 0
      modifies this`pos, buf
      ensures Agrees(Parse(Lex(old(Line()), 0)), r, [])
      ensures r.Some? ==> AllRead(r.value, buf[..es + 1], old(Line()))
      ensures r.None? ==> buf[..] == old(buf[..])
    {
      ghost var line := Line();
      r := ParseLine();
      if r.None? {
        return;
      }
      var none := Peek("");
      NoTokens(line, pos);
      if pos != es {
        return None;
      }
      LineDrawn(Lex(line, 0), Lex(line, 0));
      EndsAreEnds(r.value, line);
      NulTerminate(r.value);
      TreeReads(r.value, buf[..es + 1], line, Ends(r.value));
    }
  }
}
