/** The grammar of src/sh.c on sequences of tokens. W is what stands for a word: its text, or its
    place in the input. */
module ShellGrammar {

  const MAXARGS := 10

  // Append is ">>"
  datatype Token<W> = Word(w: W) | Sym(c: char) | Append

  datatype Redirection<W> = Redirection(file: W, mode: nat, fd: nat)

  datatype Cmd<W> =
    | Exec(argv: seq<W>)
    | Redir(cmd: Cmd<W>, r: Redirection<W>)
    | Pipe(left: Cmd<W>, right: Cmd<W>)
    | List(left: Cmd<W>, right: Cmd<W>)
    | Back(cmd: Cmd<W>)

  const O_RDONLY := 0x000
  const O_WRONLY_CREATE := 0x201

  /** Panic stands for the shell giving up on the line. */
  datatype Parsed<W> = Ok(cmd: Cmd<W>, rest: seq<Token<W>>) | Panic

  datatype Redirs<W> = Rs(rs: seq<Redirection<W>>, left: seq<Token<W>>) | NoFile

  /** The next token starts with one of these characters. */
  predicate Next<W>(ts: seq<Token<W>>, toks: string) {
    ts != [] && match ts[0] { case Sym(c) => c in toks case Append => '>' in toks case Word(_) => false }
  }

  function Wrap<W>(cmd: Cmd<W>, rs: seq<Redirection<W>>): Cmd<W>
    decreases |rs|
  {
    if rs == [] then cmd else Wrap(Redir(cmd, rs[0]), rs[1..])
  }

  function Direction<W>(tok: Token<W>, file: W): Redirection<W> {
    if tok == Sym('<') then Redirection(file, O_RDONLY, 0) else Redirection(file, O_WRONLY_CREATE, 1)
  }

  function ParseRedirs<W>(ts: seq<Token<W>>): (r: Redirs<W>)
    ensures r.Rs? ==> |r.left| <= |ts| && !Next(r.left, "<>")
  {
    if !Next(ts, "<>") then Rs([], ts)
    else if |ts| < 2 || !ts[1].Word? then NoFile
    else
      match ParseRedirs(ts[2..])
      case NoFile => NoFile
      case Rs(rs, left) => Rs([Direction(ts[0], ts[1].w)] + rs, left)
  }

  function ParseArgs<W>(argv: seq<W>, rs: seq<Redirection<W>>, ts: seq<Token<W>>): (r: Parsed<W>)
    ensures r.Ok? ==> |r.rest| <= |ts|
    decreases |ts|
  {
    if ts == [] || Next(ts, "|)&;") then Ok(Wrap(Exec(argv), rs), ts)
    else if !ts[0].Word? || |argv| + 1 >= MAXARGS then Panic
    else
      match ParseRedirs(ts[1..])
      case NoFile => Panic
      case Rs(more, left) => ParseArgs(argv + [ts[0].w], rs + more, left)
  }

  function ParseExec<W>(ts: seq<Token<W>>): (r: Parsed<W>)
    ensures r.Ok? ==> |r.rest| <= |ts|
    decreases |ts|, 0
  {
    if Next(ts, "(") then ParseBlock(ts)
    else
      match ParseRedirs(ts)
      case NoFile => Panic
      case Rs(rs, left) => ParseArgs([], rs, left)
  }

  function ParseBlock<W>(ts: seq<Token<W>>): (r: Parsed<W>)
    requires ts != []
    ensures r.Ok? ==> |r.rest| <= |ts|
    decreases |ts| - 1, 5
  {
    match ParseLine(ts[1..])
    case Panic => Panic
    case Ok(cmd, rest) =>
      if !Next(rest, ")") then Panic
      else
        match ParseRedirs(rest[1..])
        case NoFile => Panic
        case Rs(rs, left) => Ok(Wrap(cmd, rs), left)
  }

  function ParsePipe<W>(ts: seq<Token<W>>): (r: Parsed<W>)
    ensures r.Ok? ==> |r.rest| <= |ts|
    decreases |ts|, 1
  {
    match ParseExec(ts)
    case Panic => Panic
    case Ok(cmd, rest) =>
      if !Next(rest, "|") then Ok(cmd, rest)
      else
        match ParsePipe(rest[1..])
        case Panic => Panic
        case Ok(right, rest') => Ok(Pipe(cmd, right), rest')
  }

  function ParseBacks<W>(cmd: Cmd<W>, ts: seq<Token<W>>): (r: (Cmd<W>, seq<Token<W>>))
    ensures |r.1| <= |ts| && !Next(r.1, "&")
    decreases |ts|
  {
    if Next(ts, "&") then ParseBacks(Back(cmd), ts[1..]) else (cmd, ts)
  }

  function ParseLine<W>(ts: seq<Token<W>>): (r: Parsed<W>)
    ensures r.Ok? ==> |r.rest| <= |ts|
    decreases |ts|, 2
  {
    match ParsePipe(ts)
    case Panic => Panic
    case Ok(cmd, rest) =>
      var (cmd', rest') := ParseBacks(cmd, rest);
      if !Next(rest', ";") then Ok(cmd', rest')
      else
        match ParseLine(rest'[1..])
        case Panic => Panic
        case Ok(right, rest'') => Ok(List(cmd', right), rest'')
  }

  /** A whole line; nothing may be left over. */
  function Parse<W>(ts: seq<Token<W>>): (r: Parsed<W>)
    ensures r.Ok? ==> r.rest == []
  {
    match ParseLine(ts)
    case Panic => Panic
    case Ok(cmd, rest) => if rest == [] then Ok(cmd, rest) else Panic
  }
}
