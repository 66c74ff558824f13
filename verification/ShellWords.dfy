/** What the parser does with words: it never looks inside them, and it makes up none. */
module ShellWords {
  import opened ShellGrammar

  /** Words renamed by f and, if `plain`, ">>" written as ">". */
  function MapToken<W, V>(f: W -> V, plain: bool, t: Token<W>): Token<V> {
    match t
    case Word(w) => Word(f(w))
    case Sym(c) => Sym(c)
    case Append => if plain then Sym('>') else Append
  }

  function MapTokens<W, V>(f: W -> V, plain: bool, ts: seq<Token<W>>): (r: seq<Token<V>>)
    ensures |r| == |ts| && forall i | 0 <= i < |ts| :: r[i] == MapToken(f, plain, ts[i])
  {
    seq(|ts|, i requires 0 <= i < |ts| => MapToken(f, plain, ts[i]))
  }

  function MapWords<W, V>(f: W -> V, ws: seq<W>): (r: seq<V>)
    ensures |r| == |ws| && forall i | 0 <= i < |ws| :: r[i] == f(ws[i])
  {
    seq(|ws|, i requires 0 <= i < |ws| => f(ws[i]))
  }

  function MapRedir<W, V>(f: W -> V, r: Redirection<W>): Redirection<V> {
    Redirection(f(r.file), r.mode, r.fd)
  }

  function MapRedirs<W, V>(f: W -> V, rs: seq<Redirection<W>>): (r: seq<Redirection<V>>)
    ensures |r| == |rs| && forall i | 0 <= i < |rs| :: r[i] == MapRedir(f, rs[i])
  {
    seq(|rs|, i requires 0 <= i < |rs| => MapRedir(f, rs[i]))
  }

  function MapCmd<W, V>(f: W -> V, c: Cmd<W>): Cmd<V> {
    match c
    case Exec(argv) => Exec(MapWords(f, argv))
    case Redir(c, r) => Redir(MapCmd(f, c), MapRedir(f, r))
    case Pipe(l, r) => Pipe(MapCmd(f, l), MapCmd(f, r))
    case List(l, r) => List(MapCmd(f, l), MapCmd(f, r))
    case Back(c) => Back(MapCmd(f, c))
  }

  function MapParsed<W, V>(f: W -> V, plain: bool, p: Parsed<W>): Parsed<V> {
    match p
    case Panic => Panic
    case Ok(cmd, rest) => Ok(MapCmd(f, cmd), MapTokens(f, plain, rest))
  }

  function MapRs<W, V>(f: W -> V, plain: bool, p: Redirs<W>): Redirs<V> {
    match p
    case NoFile => NoFile
    case Rs(rs, left) => Rs(MapRedirs(f, rs), MapTokens(f, plain, left))
  }

  lemma MapSlice<W, V>(f: W -> V, plain: bool, ts: seq<Token<W>>, k: nat)
    requires k <= |ts|
    ensures MapTokens(f, plain, ts)[k..] == MapTokens(f, plain, ts[k..])
  {
  }

  lemma MapNext<W, V>(f: W -> V, plain: bool, ts: seq<Token<W>>, toks: string)
    ensures Next(MapTokens(f, plain, ts), toks) == Next(ts, toks)
  {
  }

  lemma {:induction false} MapWrap<W, V>(f: W -> V, c: Cmd<W>, rs: seq<Redirection<W>>)
    ensures MapCmd(f, Wrap(c, rs)) == Wrap(MapCmd(f, c), MapRedirs(f, rs))
    decreases |rs|
  {
    if rs != [] {
      MapWrap(f, Redir(c, rs[0]), rs[1..]);
      assert MapRedirs(f, rs)[1..] == MapRedirs(f, rs[1..]);
    }
  }

  lemma {:induction false} RedirsMap<W, V>(f: W -> V, plain: bool, ts: seq<Token<W>>)
    ensures ParseRedirs(MapTokens(f, plain, ts)) == MapRs(f, plain, ParseRedirs(ts))
    decreases |ts|
  {
    MapNext(f, plain, ts, "<>");
    if Next(ts, "<>") && |ts| >= 2 && ts[1].Word? {
      MapSlice(f, plain, ts, 2);
      RedirsMap(f, plain, ts[2..]);
      var d := Direction(ts[0], ts[1].w);
      assert Direction(MapTokens(f, plain, ts)[0], f(ts[1].w)) == MapRedir(f, d);
      match ParseRedirs(ts[2..])
      case NoFile =>
      case Rs(rs, left) => assert MapRedirs(f, [d] + rs) == [MapRedir(f, d)] + MapRedirs(f, rs);
    } else if !Next(ts, "<>") {
      assert MapRedirs(f, []) == [];
    }
  }

  lemma {:induction false} ArgsMap<W, V>(f: W -> V, plain: bool, argv: seq<W>, rs: seq<Redirection<W>>, ts: seq<Token<W>>)
    ensures ParseArgs(MapWords(f, argv), MapRedirs(f, rs), MapTokens(f, plain, ts)) ==
            MapParsed(f, plain, ParseArgs(argv, rs, ts))
    decreases |ts|
  {
    MapNext(f, plain, ts, "|)&;");
    if ts == [] || Next(ts, "|)&;") {
      MapWrap(f, Exec(argv), rs);
    } else if ts[0].Word? && |argv| + 1 < MAXARGS {
      MapSlice(f, plain, ts, 1);
      RedirsMap(f, plain, ts[1..]);
      match ParseRedirs(ts[1..])
      case NoFile =>
      case Rs(more, left) =>
        assert MapWords(f, argv + [ts[0].w]) == MapWords(f, argv) + [f(ts[0].w)];
        assert MapRedirs(f, rs + more) == MapRedirs(f, rs) + MapRedirs(f, more);
        ArgsMap(f, plain, argv + [ts[0].w], rs + more, left);
    }
  }

  lemma {:induction false} ExecMap<W, V>(f: W -> V, plain: bool, ts: seq<Token<W>>)
    ensures ParseExec(MapTokens(f, plain, ts)) == MapParsed(f, plain, ParseExec(ts))
    decreases |ts|, 0
  {
    MapNext(f, plain, ts, "(");
    if Next(ts, "(") {
      MapSlice(f, plain, ts, 1);
      LineMap(f, plain, ts[1..]);
      match ParseLine(ts[1..])
      case Panic =>
      case Ok(cmd, rest) =>
        MapNext(f, plain, rest, ")");
        if Next(rest, ")") {
          MapSlice(f, plain, rest, 1);
          RedirsMap(f, plain, rest[1..]);
          match ParseRedirs(rest[1..])
          case NoFile =>
          case Rs(rs, left) => MapWrap(f, cmd, rs);
        }
    } else {
      RedirsMap(f, plain, ts);
      match ParseRedirs(ts)
      case NoFile =>
      case Rs(rs, left) =>
        assert MapWords(f, []) == [];
        ArgsMap(f, plain, [], rs, left);
    }
  }

  lemma {:induction false} PipeMap<W, V>(f: W -> V, plain: bool, ts: seq<Token<W>>)
    ensures ParsePipe(MapTokens(f, plain, ts)) == MapParsed(f, plain, ParsePipe(ts))
    decreases |ts|, 1
  {
    ExecMap(f, plain, ts);
    match ParseExec(ts)
    case Panic =>
    case Ok(cmd, rest) =>
      MapNext(f, plain, rest, "|");
      if Next(rest, "|") {
        MapSlice(f, plain, rest, 1);
        PipeMap(f, plain, rest[1..]);
      }
  }

  lemma {:induction false} BacksMap<W, V>(f: W -> V, plain: bool, cmd: Cmd<W>, ts: seq<Token<W>>)
    ensures
      var (c, r) := ParseBacks(cmd, ts);
      ParseBacks(MapCmd(f, cmd), MapTokens(f, plain, ts)) == (MapCmd(f, c), MapTokens(f, plain, r))
    decreases |ts|
  {
    MapNext(f, plain, ts, "&");
    if Next(ts, "&") {
      MapSlice(f, plain, ts, 1);
      BacksMap(f, plain, Back(cmd), ts[1..]);
    }
  }

  lemma {:induction false} LineMap<W, V>(f: W -> V, plain: bool, ts: seq<Token<W>>)
    ensures ParseLine(MapTokens(f, plain, ts)) == MapParsed(f, plain, ParseLine(ts))
    decreases |ts|, 2
  {
    PipeMap(f, plain, ts);
    match ParsePipe(ts)
    case Panic =>
    case Ok(cmd, rest) =>
      BacksMap(f, plain, cmd, rest);
      var (cmd', rest') := ParseBacks(cmd, rest);
      MapNext(f, plain, rest', ";");
      if Next(rest', ";") {
        MapSlice(f, plain, rest', 1);
        LineMap(f, plain, rest'[1..]);
      }
  }

  /** Parsing and renaming words commute, and ">>" is parsed as ">" is. */
  lemma ParseMap<W, V>(f: W -> V, plain: bool, ts: seq<Token<W>>)
    ensures Parse(MapTokens(f, plain, ts)) == MapParsed(f, plain, Parse(ts))
  {
    LineMap(f, plain, ts);
  }

  lemma {:induction false} MapSameCmd<W>(c: Cmd<W>)
    ensures MapCmd(x => x, c) == c
  {
    match c
    case Exec(argv) => assert MapWords(x => x, argv) == argv;
    case Redir(d, r) => MapSameCmd(d);
    case Pipe(l, r) =>
      MapSameCmd(l);
      MapSameCmd(r);
    case List(l, r) =>
      MapSameCmd(l);
      MapSameCmd(r);
    case Back(d) => MapSameCmd(d);
  }

  /** Writing ">" for any ">>" changes nothing. */
  lemma AppendIsOutput<W>(ts: seq<Token<W>>, us: seq<Token<W>>)
    requires |us| == |ts|
    requires forall i | 0 <= i < |ts| :: us[i] == ts[i] || (ts[i] == Append && us[i] == Sym('>'))
    ensures Parse(us) == Parse(ts)
  {
    hide Parse, MapCmd;
    var same: W -> W := x => x;
    assert MapTokens(same, true, us) == MapTokens(same, true, ts);
    ParseMap(same, true, ts);
    ParseMap(same, true, us);
    PlainParse(ts);
    PlainParse(us);
  }

  lemma PlainParse<W>(ts: seq<Token<W>>)
    ensures MapParsed((x: W) => x, true, Parse(ts)) == Parse(ts)
  {
    hide MapCmd, ParseLine;
    var r := Parse(ts);
    if r.Ok? {
      MapSameCmd(r.cmd);
      assert MapTokens((x: W) => x, true, r.rest) == [];
    }
  }

  // ----- no word is made up -----

  /** Every word of the tree is one of the tokens. */
  predicate Drawn<W(==)>(c: Cmd<W>, all: seq<Token<W>>) {
    match c
    case Exec(argv) => forall i | 0 <= i < |argv| :: Word(argv[i]) in all
    case Redir(c, r) => Drawn(c, all) && Word(r.file) in all
    case Pipe(l, r) => Drawn(l, all) && Drawn(r, all)
    case List(l, r) => Drawn(l, all) && Drawn(r, all)
    case Back(c) => Drawn(c, all)
  }

  predicate Sub<W(==)>(ts: seq<Token<W>>, all: seq<Token<W>>) { forall i | 0 <= i < |ts| :: ts[i] in all }

  predicate DrawnRedirs<W(==)>(rs: seq<Redirection<W>>, all: seq<Token<W>>) {
    forall i | 0 <= i < |rs| :: Word(rs[i].file) in all
  }

  lemma {:induction false} WrapDrawn<W>(c: Cmd<W>, rs: seq<Redirection<W>>, all: seq<Token<W>>)
    requires Drawn(c, all) && DrawnRedirs(rs, all)
    ensures Drawn(Wrap(c, rs), all)
    decreases |rs|
  {
    if rs != [] {
      WrapDrawn(Redir(c, rs[0]), rs[1..], all);
    }
  }

  lemma {:induction false} RedirsDrawn<W>(ts: seq<Token<W>>, all: seq<Token<W>>)
    requires Sub(ts, all)
    ensures var r := ParseRedirs(ts); r.Rs? ==> DrawnRedirs(r.rs, all) && Sub(r.left, all)
    decreases |ts|
  {
    if Next(ts, "<>") && |ts| >= 2 && ts[1].Word? {
      RedirsDrawn(ts[2..], all);
      assert ts[1] == Word(ts[1].w);
    }
  }

  lemma {:induction false} ArgsDrawn<W>(argv: seq<W>, rs: seq<Redirection<W>>, ts: seq<Token<W>>, all: seq<Token<W>>)
    requires Sub(ts, all) && Drawn(Exec(argv), all) && DrawnRedirs(rs, all)
    ensures var r := ParseArgs(argv, rs, ts); r.Ok? ==> Drawn(r.cmd, all) && Sub(r.rest, all)
    decreases |ts|
  {
    if ts == [] || Next(ts, "|)&;") {
      WrapDrawn(Exec(argv), rs, all);
    } else if ts[0].Word? && |argv| + 1 < MAXARGS {
      RedirsDrawn(ts[1..], all);
      match ParseRedirs(ts[1..])
      case NoFile =>
      case Rs(more, left) =>
        assert ts[0] == Word(ts[0].w);
        ArgsDrawn(argv + [ts[0].w], rs + more, left, all);
    }
  }

  lemma {:induction false} ExecDrawn<W>(ts: seq<Token<W>>, all: seq<Token<W>>)
    requires Sub(ts, all)
    ensures var r := ParseExec(ts); r.Ok? ==> Drawn(r.cmd, all) && Sub(r.rest, all)
    decreases |ts|, 0
  {
    if Next(ts, "(") {
      LineDrawn(ts[1..], all);
      match ParseLine(ts[1..])
      case Panic =>
      case Ok(cmd, rest) =>
        if Next(rest, ")") {
          RedirsDrawn(rest[1..], all);
          match ParseRedirs(rest[1..])
          case NoFile =>
          case Rs(rs, left) => WrapDrawn(cmd, rs, all);
        }
    } else {
      RedirsDrawn(ts, all);
      match ParseRedirs(ts)
      case NoFile =>
      case Rs(rs, left) => ArgsDrawn([], rs, left, all);
    }
  }

  lemma {:induction false} PipeDrawn<W>(ts: seq<Token<W>>, all: seq<Token<W>>)
    requires Sub(ts, all)
    ensures var r := ParsePipe(ts); r.Ok? ==> Drawn(r.cmd, all) && Sub(r.rest, all)
    decreases |ts|, 1
  {
    ExecDrawn(ts, all);
    match ParseExec(ts)
    case Panic =>
    case Ok(cmd, rest) =>
      if Next(rest, "|") {
        PipeDrawn(rest[1..], all);
      }
  }

  lemma {:induction false} BacksDrawn<W>(cmd: Cmd<W>, ts: seq<Token<W>>, all: seq<Token<W>>)
    requires Sub(ts, all) && Drawn(cmd, all)
    ensures var (c, r) := ParseBacks(cmd, ts); Drawn(c, all) && Sub(r, all)
    decreases |ts|
  {
    if Next(ts, "&") {
      BacksDrawn(Back(cmd), ts[1..], all);
    }
  }

  /** Every word of a parsed tree is a word of the input. */
  lemma {:induction false} LineDrawn<W>(ts: seq<Token<W>>, all: seq<Token<W>>)
    requires Sub(ts, all)
    ensures var r := ParseLine(ts); r.Ok? ==> Drawn(r.cmd, all) && Sub(r.rest, all)
    decreases |ts|, 2
  {
    PipeDrawn(ts, all);
    match ParsePipe(ts)
    case Panic =>
    case Ok(cmd, rest) =>
      BacksDrawn(cmd, rest, all);
      var (cmd', rest') := ParseBacks(cmd, rest);
      if Next(rest', ";") {
        LineDrawn(rest'[1..], all);
      }
  }
}
