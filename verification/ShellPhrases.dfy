/** The language of the shell as a grammar, apart from the parser: every way of writing a command line
    and the tree it stands for. The parser of src/sh.c accepts exactly this language. */
module ShellPhrases {
  import opened ShellGrammar

  // "<", ">" and ">>", each with a file
  datatype Redirect<W> = From(file: W) | To(file: W) | AppendTo(file: W)

  datatype Item<W> = Arg(w: W) | Move(r: Redirect<W>)

  /** Words and redirections in any order, or a line in parentheses with redirections behind it. */
  datatype Unit<W> = Simple(items: seq<Item<W>>) | Block(line: Line<W>, rs: seq<Redirect<W>>)

  datatype Pipeline<W> = Only(u: Unit<W>) | Bar(u: Unit<W>, rest: Pipeline<W>)

  /** A pipeline, any number of "&", and, after a ";", another line. */
  datatype Line<W> = Last(p: Pipeline<W>, amps: nat) | Semi(p: Pipeline<W>, amps: nat, rest: Line<W>)

  // ----- how a line is written -----

  function SpellRedirect<W>(r: Redirect<W>): (ts: seq<Token<W>>)
    ensures |ts| == 2 && ts[1] == Word(r.file) && Next(ts, "<>")
  {
    match r
    case From(f) => [Sym('<'), Word(f)]
    case To(f) => [Sym('>'), Word(f)]
    case AppendTo(f) => [Append, Word(f)]
  }

  function SpellRedirects<W>(rs: seq<Redirect<W>>): seq<Token<W>> {
    if rs == [] then [] else SpellRedirect(rs[0]) + SpellRedirects(rs[1..])
  }

  function SpellItem<W>(i: Item<W>): seq<Token<W>> {
    match i case Arg(w) => [Word(w)] case Move(r) => SpellRedirect(r)
  }

  function SpellItems<W>(items: seq<Item<W>>): seq<Token<W>> {
    if items == [] then [] else SpellItem(items[0]) + SpellItems(items[1..])
  }

  function Amps<W>(n: nat): (ts: seq<Token<W>>) { seq(n, _ => Sym('&')) }

  function SpellUnit<W>(u: Unit<W>): seq<Token<W>>
    decreases u
  {
    match u
    case Simple(items) => SpellItems(items)
    case Block(line, rs) => [Sym('(')] + (SpellLine(line) + ([Sym(')')] + SpellRedirects(rs)))
  }

  function SpellPipe<W>(p: Pipeline<W>): seq<Token<W>>
    decreases p
  {
    match p
    case Only(u) => SpellUnit(u)
    case Bar(u, rest) => SpellUnit(u) + ([Sym('|')] + SpellPipe(rest))
  }

  function SpellLine<W>(l: Line<W>): seq<Token<W>>
    decreases l
  {
    match l
    case Last(p, n) => SpellPipe(p) + Amps(n)
    case Semi(p, n, rest) => SpellPipe(p) + (Amps(n) + ([Sym(';')] + SpellLine(rest)))
  }

  // ----- the tree it stands for -----

  /** ">>" opens its file as ">" does. */
  function Meaning<W>(r: Redirect<W>): Redirection<W> {
    if r.From? then Redirection(r.file, O_RDONLY, 0) else Redirection(r.file, O_WRONLY_CREATE, 1)
  }

  function Meanings<W>(rs: seq<Redirect<W>>): (ms: seq<Redirection<W>>)
    ensures |ms| == |rs| && forall i | 0 <= i < |rs| :: ms[i] == Meaning(rs[i])
  {
    seq(|rs|, i requires 0 <= i < |rs| => Meaning(rs[i]))
  }

  /** The words, in order. */
  function Args<W>(items: seq<Item<W>>): seq<W> {
    if items == [] then [] else (if items[0].Arg? then [items[0].w] else []) + Args(items[1..])
  }

  /** The redirections, in order. */
  function Moves<W>(items: seq<Item<W>>): seq<Redirection<W>> {
    if items == [] then [] else (if items[0].Move? then [Meaning(items[0].r)] else []) + Moves(items[1..])
  }

  lemma ItemsFirst<W>(i: Item<W>, more: seq<Item<W>>)
    ensures SpellItems([i] + more) == SpellItem(i) + SpellItems(more)
    ensures Args([i] + more) == (if i.Arg? then [i.w] else []) + Args(more)
    ensures Moves([i] + more) == (if i.Move? then [Meaning(i.r)] else []) + Moves(more)
  {
    assert ([i] + more)[1..] == more;
  }

  lemma RedirectsFirst<W>(r: Redirect<W>, more: seq<Redirect<W>>)
    ensures SpellRedirects([r] + more) == SpellRedirect(r) + SpellRedirects(more)
    ensures Meanings([r] + more) == [Meaning(r)] + Meanings(more)
  {
    hide SpellRedirect, Meanings;
    assert ([r] + more)[1..] == more;
    MeaningsFirst(r, more);
  }

  lemma MeaningsFirst<W>(r: Redirect<W>, more: seq<Redirect<W>>)
    ensures Meanings([r] + more) == [Meaning(r)] + Meanings(more)
  {
    hide Meaning;
  }

  function Backs<W>(c: Cmd<W>, n: nat): Cmd<W>
    decreases n
  {
    if n == 0 then c else Backs(Back(c), n - 1)
  }

  function TreeUnit<W>(u: Unit<W>): Cmd<W>
    decreases u
  {
    match u
    case Simple(items) => Wrap(Exec(Args(items)), Moves(items))
    case Block(line, rs) => Wrap(TreeLine(line), Meanings(rs))
  }

  function TreePipe<W>(p: Pipeline<W>): Cmd<W>
    decreases p
  {
    match p
    case Only(u) => TreeUnit(u)
    case Bar(u, rest) => Pipe(TreeUnit(u), TreePipe(rest))
  }

  function TreeLine<W>(l: Line<W>): Cmd<W>
    decreases l
  {
    match l
    case Last(p, n) => Backs(TreePipe(p), n)
    case Semi(p, n, rest) => List(Backs(TreePipe(p), n), TreeLine(rest))
  }

  /** No command has too many words. */
  predicate UnitOk<W>(u: Unit<W>)
    decreases u
  {
    match u
    case Simple(items) => |Args(items)| < MAXARGS
    case Block(line, _) => LineOk(line)
  }

  predicate PipeOk<W>(p: Pipeline<W>)
    decreases p
  {
    UnitOk(p.u) && (p.Bar? ==> PipeOk(p.rest))
  }

  predicate LineOk<W>(l: Line<W>)
    decreases l
  {
    PipeOk(l.p) && (l.Semi? ==> LineOk(l.rest))
  }

  // ----- what is written is read -----

  predicate Follows<W>(rest: seq<Token<W>>, toks: string) { rest == [] || Next(rest, toks) }

  lemma {:induction false} RedirectsRead<W>(rs: seq<Redirect<W>>, rest: seq<Token<W>>)
    requires !Next(rest, "<>")
    ensures ParseRedirs(SpellRedirects(rs) + rest) == Rs(Meanings(rs), rest)
  {
    hide SpellRedirects, SpellRedirect, Meanings;
    if rs == [] {
      NoRedirects<W>();
      assert SpellRedirects(rs) + rest == rest;
    } else {
      var more := rs[1..];
      assert rs == [rs[0]] + more;
      RedirectsRead(more, rest);
      RedirectsFirst(rs[0], more);
      OneRedirect(rs[0], SpellRedirects(more) + rest);
      assert SpellRedirects(rs) + rest == SpellRedirect(rs[0]) + (SpellRedirects(more) + rest);
    }
  }

  lemma OneRedirect<W>(r: Redirect<W>, more: seq<Token<W>>)
    ensures
      var ts := SpellRedirect(r) + more;
      && Next(ts, "<>") && !Next(ts, "(") && |ts| >= 2 && ts[1] == Word(r.file) && ts[2..] == more
      && Direction(ts[0], r.file) == Meaning(r)
  {
  }

  lemma ReadMove<W>(r: Redirect<W>, more: seq<Token<W>>)
    requires ParseRedirs(more).Rs?
    ensures ParseRedirs(SpellRedirect(r) + more) == Rs([Meaning(r)] + ParseRedirs(more).rs, ParseRedirs(more).left)
  {
    hide SpellRedirect;
    OneRedirect(r, more);
  }

  lemma ReadArg<W>(argv: seq<W>, rs: seq<Redirection<W>>, w: W, more: seq<Token<W>>)
    requires |argv| + 1 < MAXARGS && ParseRedirs(more).Rs?
    ensures
      var ts, r := [Word(w)] + more, ParseRedirs(more);
      ParseRedirs(ts) == Rs([], ts) && ParseArgs(argv, rs, ts) == ParseArgs(argv + [w], rs + r.rs, r.left)
  {
    assert ([Word(w)] + more)[1..] == more;
  }

  lemma ReadNone<W>(argv: seq<W>, rs: seq<Redirection<W>>, rest: seq<Token<W>>)
    requires Follows(rest, "|)&;")
    ensures ParseRedirs(rest) == Rs([], rest) && ParseArgs(argv, rs, rest) == Ok(Wrap(Exec(argv), rs), rest)
  {
    hide Wrap;
  }

  /** Words and redirections in any order: the words in order, and the redirections in order. */
  lemma {:induction false} ItemsRead<W>(argv: seq<W>, rs: seq<Redirection<W>>, items: seq<Item<W>>, rest: seq<Token<W>>)
    requires |argv| + |Args(items)| < MAXARGS && Follows(rest, "|)&;")
    ensures
      var r := ParseRedirs(SpellItems(items) + rest);
      && r.Rs?
      && ParseArgs(argv, rs + r.rs, r.left) == Ok(Wrap(Exec(argv + Args(items)), rs + Moves(items)), rest)
    decreases |items|
  {
    hide Wrap, SpellItems, SpellRedirect, Args, Moves, ParseArgs, ParseRedirs, Follows;
    var ts := SpellItems(items) + rest;
    if items == [] {
      ItemsNone<W>();
      assert ts == rest && argv + Args(items) == argv && rs + Moves(items) == rs && rs + [] == rs;
      ReadNone(argv, rs, rest);
    } else {
      var more := items[1..];
      var ts' := SpellItems(more) + rest;
      assert items == [items[0]] + more;
      ItemsFirst(items[0], more);
      match items[0]
      case Arg(w) =>
        assert ts == [Word(w)] + ts';
        assert argv + Args(items) == argv + [w] + Args(more) && Moves(items) == Moves(more);
        ItemsRead(argv + [w], rs, more, rest);
        ReadArg(argv, rs, w, ts');
        assert rs + [] == rs;
      case Move(r) =>
        assert ts == SpellRedirect(r) + ts';
        var m := Meaning(r);
        assert Args(items) == Args(more) && rs + Moves(items) == rs + [m] + Moves(more);
        ItemsRead(argv, rs + [m], more, rest);
        ReadMove(r, ts');
        assert rs + ([m] + ParseRedirs(ts').rs) == rs + [m] + ParseRedirs(ts').rs;
    }
  }

  lemma ItemsNone<W>()
    ensures SpellItems<W>([]) == [] && Args<W>([]) == [] && Moves<W>([]) == []
  {
  }

  lemma NotOpen<W>(items: seq<Item<W>>, rest: seq<Token<W>>)
    requires Follows(rest, "|)&;")
    ensures !Next(SpellItems(items) + rest, "(")
  {
    if items == [] {
      assert SpellItems(items) + rest == rest;
    }
  }

  lemma {:induction false} UnitRead<W>(u: Unit<W>, rest: seq<Token<W>>)
    requires UnitOk(u) && Follows(rest, "|)&;")
    ensures ParseExec(SpellUnit(u) + rest) == Ok(TreeUnit(u), rest)
    decreases u
  {
    hide Wrap, ParseArgs, ParseRedirs, ParseLine, SpellLine, SpellRedirects;
    var ts := SpellUnit(u) + rest;
    match u
    case Simple(items) =>
      NotOpen(items, rest);
      ItemsRead([], [], items, rest);
      var r := ParseRedirs(ts);
      assert [] + r.rs == r.rs && [] + Args(items) == Args(items) && [] + Moves(items) == Moves(items);
    case Block(line, rs) =>
      var after := SpellRedirects(rs) + rest;
      assert ts == [Sym('(')] + (SpellLine(line) + ([Sym(')')] + after));
      assert ts[1..] == SpellLine(line) + ([Sym(')')] + after) && ([Sym(')')] + after)[1..] == after;
      LineRead(line, [Sym(')')] + after);
      RedirectsRead(rs, rest);
  }

  lemma {:induction false} PipeRead<W>(p: Pipeline<W>, rest: seq<Token<W>>)
    requires PipeOk(p) && Follows(rest, ")&;")
    ensures ParsePipe(SpellPipe(p) + rest) == Ok(TreePipe(p), rest)
    decreases p
  {
    hide ParseExec, SpellUnit, TreeUnit;
    match p
    case Only(u) => UnitRead(u, rest);
    case Bar(u, more) =>
      var after := [Sym('|')] + (SpellPipe(more) + rest);
      assert SpellPipe(p) + rest == SpellUnit(u) + after;
      UnitRead(u, after);
      assert after[1..] == SpellPipe(more) + rest;
      PipeRead(more, rest);
  }

  lemma {:induction false} AmpsRead<W>(c: Cmd<W>, n: nat, rest: seq<Token<W>>)
    requires !Next(rest, "&")
    ensures ParseBacks(c, Amps(n) + rest) == (Backs(c, n), rest)
    decreases n
  {
    var ts := Amps(n) + rest;
    if n == 0 {
      assert ts == rest;
    } else {
      assert ts[0] == Sym('&') && ts[1..] == Amps(n - 1) + rest;
      AmpsRead(Back(c), n - 1, rest);
    }
  }

  lemma AmpsFollow<W>(n: nat, rest: seq<Token<W>>)
    requires Follows(rest, ");")
    ensures Follows(Amps(n) + rest, ")&;")
  {
    if n == 0 {
      assert Amps(n) + rest == rest;
    }
  }

  /** Every way of writing a line is read as the tree it stands for. */
  lemma {:induction false} LineRead<W>(l: Line<W>, rest: seq<Token<W>>)
    requires LineOk(l) && Follows(rest, ")")
    ensures ParseLine(SpellLine(l) + rest) == Ok(TreeLine(l), rest)
    decreases l
  {
    hide ParsePipe, SpellPipe, TreePipe, ParseBacks, Amps;
    match l
    case Last(p, n) =>
      assert SpellLine(l) + rest == SpellPipe(p) + (Amps(n) + rest);
      AmpsFollow(n, rest);
      PipeRead(p, Amps(n) + rest);
      AmpsRead(TreePipe(p), n, rest);
    case Semi(p, n, more) =>
      var after := [Sym(';')] + (SpellLine(more) + rest);
      assert SpellLine(l) + rest == SpellPipe(p) + (Amps(n) + after);
      AmpsFollow(n, after);
      PipeRead(p, Amps(n) + after);
      AmpsRead(TreePipe(p), n, after);
      assert after[1..] == SpellLine(more) + rest;
      LineRead(more, rest);
  }

  // ----- what is read was written -----

  lemma RedirectWas<W>(ts: seq<Token<W>>) returns (d: Redirect<W>)
    requires Next(ts, "<>") && |ts| >= 2 && ts[1].Word?
    ensures ts == SpellRedirect(d) + ts[2..] && Direction(ts[0], ts[1].w) == Meaning(d)
  {
    var f := ts[1].w;
    d := if ts[0] == Sym('<') then From(f) else if ts[0] == Append then AppendTo(f) else To(f);
    assert ts == [ts[0], ts[1]] + ts[2..];
  }

  lemma RedirectsStep<W>(ts: seq<Token<W>>)
    requires ParseRedirs(ts).Rs?
    ensures
      if !Next(ts, "<>") then ParseRedirs(ts) == Rs([], ts)
      else
        && |ts| >= 2 && ts[1].Word? && ParseRedirs(ts[2..]).Rs?
        && var r := ParseRedirs(ts[2..]);
        ParseRedirs(ts) == Rs([Direction(ts[0], ts[1].w)] + r.rs, r.left)
  {
  }

  lemma {:induction false} RedirectsWere<W>(ts: seq<Token<W>>) returns (ds: seq<Redirect<W>>)
    requires ParseRedirs(ts).Rs?
    ensures ts == SpellRedirects(ds) + ParseRedirs(ts).left && Meanings(ds) == ParseRedirs(ts).rs
    decreases |ts|
  {
    hide SpellRedirects, SpellRedirect, Meanings, Direction, Meaning, ParseRedirs, Next;
    RedirectsStep(ts);
    if !Next(ts, "<>") {
      ds := [];
      NoRedirects<W>();
    } else {
      var d := RedirectWas(ts);
      var more := RedirectsWere(ts[2..]);
      ds := [d] + more;
      RedirectsFirst(d, more);
    }
  }

  lemma NoRedirects<W>()
    ensures SpellRedirects<W>([]) == [] && Meanings<W>([]) == []
  {
  }

  function Moving<W>(rs: seq<Redirect<W>>): (items: seq<Item<W>>)
    ensures |items| == |rs| && forall i | 0 <= i < |rs| :: items[i] == Move(rs[i])
  {
    seq(|rs|, i requires 0 <= i < |rs| => Move(rs[i]))
  }

  /** Redirections at the front of a command. */
  lemma {:induction false} MovingFirst<W>(rs: seq<Redirect<W>>, items: seq<Item<W>>)
    ensures SpellItems(Moving(rs) + items) == SpellRedirects(rs) + SpellItems(items)
    ensures Args(Moving(rs) + items) == Args(items) && Moves(Moving(rs) + items) == Meanings(rs) + Moves(items)
    decreases |rs|
  {
    hide SpellItems, SpellRedirects, SpellRedirect, Args, Moves, Meanings;
    var all := Moving(rs) + items;
    if rs == [] {
      NoRedirects<W>();
      assert all == items;
    } else {
      var r, more := rs[0], rs[1..];
      assert rs == [r] + more && all == [Move(r)] + (Moving(more) + items);
      MovingFirst(more, items);
      ItemsFirst(Move(r), Moving(more) + items);
      RedirectsFirst(r, more);
    }
  }

  lemma ArgsStep<W>(argv: seq<W>, rs: seq<Redirection<W>>, ts: seq<Token<W>>)
    requires ParseArgs(argv, rs, ts).Ok?
    ensures
      if Follows(ts, "|)&;") then ParseArgs(argv, rs, ts) == Ok(Wrap(Exec(argv), rs), ts)
      else
        && ts != [] && ts[0].Word? && |argv| + 1 < MAXARGS && ParseRedirs(ts[1..]).Rs?
        && var r := ParseRedirs(ts[1..]);
        ParseArgs(argv, rs, ts) == ParseArgs(argv + [ts[0].w], rs + r.rs, r.left)
  {
    hide Wrap;
  }

  lemma {:induction false} ArgsWere<W>(argv: seq<W>, rs: seq<Redirection<W>>, ts: seq<Token<W>>)
    returns (items: seq<Item<W>>)
    requires ParseArgs(argv, rs, ts).Ok? && |argv| < MAXARGS
    ensures
      var r := ParseArgs(argv, rs, ts);
      && ts == SpellItems(items) + r.rest && |argv| + |Args(items)| < MAXARGS
      && r.cmd == Wrap(Exec(argv + Args(items)), rs + Moves(items))
    decreases |ts|
  {
    hide Wrap, SpellItems, SpellRedirects, Args, Moves, Meanings, ParseRedirs, ParseArgs, Follows;
    ArgsStep(argv, rs, ts);
    if Follows(ts, "|)&;") {
      items := [];
      ItemsNone<W>();
      assert argv + Args(items) == argv && rs + Moves(items) == rs;
    } else {
      var w := ts[0].w;
      var ds := RedirectsWere(ts[1..]);
      var r := ParseRedirs(ts[1..]);
      var more := ArgsWere(argv + [w], rs + r.rs, r.left);
      var tail := Moving(ds) + more;
      MovingFirst(ds, more);
      items := [Arg(w)] + tail;
      ItemsFirst(Arg(w), tail);
      assert ts == [Word(w)] + ts[1..];
      assert argv + Args(items) == argv + [w] + Args(more) && rs + Moves(items) == rs + r.rs + Moves(more);
    }
  }

  lemma {:induction false} UnitWas<W>(ts: seq<Token<W>>) returns (u: Unit<W>)
    requires ParseExec(ts).Ok?
    ensures UnitOk(u) && ts == SpellUnit(u) + ParseExec(ts).rest && TreeUnit(u) == ParseExec(ts).cmd
    decreases |ts|, 0
  {
    hide Wrap, ParseArgs, ParseRedirs, SpellItems, SpellRedirects, Args, Moves;
    if Next(ts, "(") {
      var line := LineWas(ts[1..]);
      var r := ParseLine(ts[1..]);
      var ds := RedirectsWere(r.rest[1..]);
      u := Block(line, ds);
      assert ts == [Sym('(')] + ts[1..] && r.rest == [Sym(')')] + r.rest[1..];
    } else {
      var ds := RedirectsWere(ts);
      var r := ParseRedirs(ts);
      var items := ArgsWere([], r.rs, r.left);
      MovingFirst(ds, items);
      u := Simple(Moving(ds) + items);
      assert [] + Args(items) == Args(items);
    }
  }

  lemma {:induction false} PipeWas<W>(ts: seq<Token<W>>) returns (p: Pipeline<W>)
    requires ParsePipe(ts).Ok?
    ensures PipeOk(p) && ts == SpellPipe(p) + ParsePipe(ts).rest && TreePipe(p) == ParsePipe(ts).cmd
    decreases |ts|, 1
  {
    hide ParseExec, SpellUnit, TreeUnit, UnitOk;
    var u := UnitWas(ts);
    var rest := ParseExec(ts).rest;
    if Next(rest, "|") {
      var more := PipeWas(rest[1..]);
      p := Bar(u, more);
      assert rest == [Sym('|')] + rest[1..];
    } else {
      p := Only(u);
    }
  }

  lemma {:induction false} AmpsWere<W>(c: Cmd<W>, ts: seq<Token<W>>) returns (n: nat)
    ensures ts == Amps(n) + ParseBacks(c, ts).1 && ParseBacks(c, ts).0 == Backs(c, n)
    decreases |ts|
  {
    if Next(ts, "&") {
      var k := AmpsWere(Back(c), ts[1..]);
      n := k + 1;
      assert ts == [Sym('&')] + ts[1..] && [Sym('&')] + Amps<W>(k) == Amps<W>(n);
    } else {
      n := 0;
    }
  }

  /** Whatever the parser reads is a line written some way, and the tree is the one it stands for. */
  lemma {:induction false} LineWas<W>(ts: seq<Token<W>>) returns (l: Line<W>)
    requires ParseLine(ts).Ok?
    ensures LineOk(l) && ts == SpellLine(l) + ParseLine(ts).rest && TreeLine(l) == ParseLine(ts).cmd
    decreases |ts|, 2
  {
    hide ParsePipe, SpellPipe, TreePipe, PipeOk, Amps, ParseBacks, Backs;
    var p := PipeWas(ts);
    var r := ParsePipe(ts);
    var n := AmpsWere(r.cmd, r.rest);
    var rest := ParseBacks(r.cmd, r.rest).1;
    if Next(rest, ";") {
      var more := LineWas(rest[1..]);
      l := Semi(p, n, more);
      assert rest == [Sym(';')] + rest[1..];
    } else {
      l := Last(p, n);
    }
  }

  ghost predicate Writes<W(!new)>(ts: seq<Token<W>>, c: Cmd<W>) {
    exists l: Line<W> :: LineOk(l) && SpellLine(l) == ts && TreeLine(l) == c
  }

  /** The parser accepts exactly the lines of the grammar, and gives the tree each stands for. */
  lemma ParseExactly<W(!new)>(ts: seq<Token<W>>, c: Cmd<W>)
    ensures Parse(ts) == Ok(c, []) <==> Writes(ts, c)
  {
    hide ParseLine, SpellLine, TreeLine, LineOk;
    if Parse(ts) == Ok(c, []) {
      var l := LineWas(ts);
      assert SpellLine(l) + [] == SpellLine(l);
    }
    if Writes(ts, c) {
      var l: Line<W> :| LineOk(l) && SpellLine(l) == ts && TreeLine(l) == c;
      LineRead(l, []);
      assert SpellLine(l) + [] == SpellLine(l);
    }
  }

  // ----- every tree can be written -----

  predicate RedirectionOk<W>(r: Redirection<W>) {
    (r.mode == O_RDONLY && r.fd == 0) || (r.mode == O_WRONLY_CREATE && r.fd == 1)
  }

  /** A tree the shell can have: at most nine arguments, and the redirections there are. */
  predicate WellFormed<W>(t: Cmd<W>) {
    match t
    case Exec(argv) => |argv| < MAXARGS
    case Redir(c, r) => WellFormed(c) && RedirectionOk(r)
    case Pipe(l, r) => WellFormed(l) && WellFormed(r)
    case List(l, r) => WellFormed(l) && WellFormed(r)
    case Back(c) => WellFormed(c)
  }

  /** The command under the redirections, and these, innermost first. */
  function Base<W>(t: Cmd<W>): (c: Cmd<W>)
    ensures !c.Redir? && (c == t || c < t)
  {
    if t.Redir? then Base(t.cmd) else t
  }

  function Outer<W>(t: Cmd<W>): seq<Redirect<W>> {
    if t.Redir? then Outer(t.cmd) + [if t.r.fd == 0 then From(t.r.file) else To(t.r.file)] else []
  }

  function Arguments<W>(argv: seq<W>): (items: seq<Item<W>>)
    ensures |items| == |argv| && forall i | 0 <= i < |argv| :: items[i] == Arg(argv[i])
  {
    seq(|argv|, i requires 0 <= i < |argv| => Arg(argv[i]))
  }

  function PrintUnit<W>(t: Cmd<W>): Unit<W>
    decreases t, 5
  {
    var b := Base(t);
    if b.Exec? then Simple(Arguments(b.argv) + Moving(Outer(t))) else Block(PrintLine(b), Outer(t))
  }

  function PrintPipe<W>(t: Cmd<W>): Pipeline<W>
    decreases t, if t.Pipe? then 1 else 6
  {
    if t.Pipe? then Bar(PrintUnit(t.left), PrintPipe(t.right)) else Only(PrintUnit(t))
  }

  /** The pipeline under the "&"s, and how many there are. */
  function PrintBack<W>(t: Cmd<W>): (Pipeline<W>, nat)
    decreases t, if t.Back? then 0 else if t.Pipe? then 2 else 7
  {
    if t.Back? then
      var (p, n) := PrintBack(t.cmd);
      (p, n + 1)
    else (PrintPipe(t), 0)
  }

  /** A way of writing the tree; parentheses only where the grammar needs them. */
  function PrintLine<W>(t: Cmd<W>): Line<W>
    decreases t, if t.List? then 0 else if t.Pipe? then 3 else if t.Back? then 4 else 8
  {
    var (p, n) := PrintBack(if t.List? then t.left else t);
    if t.List? then Semi(p, n, PrintLine(t.right)) else Last(p, n)
  }

  lemma {:induction false} WrapLast<W>(c: Cmd<W>, rs: seq<Redirection<W>>, r: Redirection<W>)
    ensures Wrap(c, rs + [r]) == Redir(Wrap(c, rs), r)
    decreases |rs|
  {
    if rs != [] {
      WrapLast(Redir(c, rs[0]), rs[1..], r);
      assert (rs + [r])[1..] == rs[1..] + [r];
    }
  }

  lemma {:induction false} Rewrapped<W>(t: Cmd<W>)
    requires WellFormed(t)
    ensures Wrap(Base(t), Meanings(Outer(t))) == t && WellFormed(Base(t))
  {
    if t.Redir? {
      Rewrapped(t.cmd);
      WrapLast(Base(t.cmd), Meanings(Outer(t.cmd)), t.r);
      assert Meanings(Outer(t)) == Meanings(Outer(t.cmd)) + [t.r];
    }
  }

  lemma {:induction false} ArgumentsFirst<W>(argv: seq<W>, rs: seq<Redirect<W>>)
    ensures var items := Arguments(argv) + Moving(rs); Args(items) == argv && Moves(items) == Meanings(rs)
    decreases |argv|
  {
    var items := Arguments(argv) + Moving(rs);
    if argv == [] {
      assert items == Moving(rs) + [];
      MovingFirst(rs, []);
      assert Meanings(rs) + [] == Meanings(rs);
    } else {
      assert items[0] == Arg(argv[0]) && items[1..] == Arguments(argv[1..]) + Moving(rs);
      ArgumentsFirst(argv[1..], rs);
    }
  }

  lemma {:induction false} PrintedUnit<W>(t: Cmd<W>)
    requires WellFormed(t)
    ensures UnitOk(PrintUnit(t)) && TreeUnit(PrintUnit(t)) == t
    decreases t, 5
  {
    hide Wrap, Outer;
    Rewrapped(t);
    var b := Base(t);
    if b.Exec? {
      ArgumentsFirst(b.argv, Outer(t));
    } else {
      PrintedLine(b);
    }
  }

  lemma {:induction false} PrintedPipe<W>(t: Cmd<W>)
    requires WellFormed(t)
    ensures PipeOk(PrintPipe(t)) && TreePipe(PrintPipe(t)) == t
    decreases t, if t.Pipe? then 1 else 6
  {
    if t.Pipe? {
      PrintedUnit(t.left);
      PrintedPipe(t.right);
    } else {
      PrintedUnit(t);
    }
  }

  lemma {:induction false} BacksLast<W>(c: Cmd<W>, n: nat)
    ensures Backs(c, n + 1) == Back(Backs(c, n))
    decreases n
  {
    if n > 0 {
      BacksLast(Back(c), n - 1);
    }
  }

  lemma {:induction false} PrintedBack<W>(t: Cmd<W>)
    requires WellFormed(t)
    ensures var (p, n) := PrintBack(t); PipeOk(p) && Backs(TreePipe(p), n) == t
    decreases t, if t.Back? then 0 else if t.Pipe? then 2 else 7
  {
    if t.Back? {
      PrintedBack(t.cmd);
      var (p, n) := PrintBack(t.cmd);
      BacksLast(TreePipe(p), n);
    } else {
      PrintedPipe(t);
    }
  }

  /** Every well-formed tree can be written: the printed line stands for it. */
  lemma {:induction false} PrintedLine<W>(t: Cmd<W>)
    requires WellFormed(t)
    ensures LineOk(PrintLine(t)) && TreeLine(PrintLine(t)) == t
    decreases t, if t.List? then 0 else if t.Pipe? then 3 else if t.Back? then 4 else 8
  {
    if t.List? {
      PrintedBack(t.left);
      PrintedLine(t.right);
    } else {
      PrintedBack(t);
    }
  }

  lemma {:induction false} WrapWell<W>(c: Cmd<W>, rs: seq<Redirection<W>>)
    requires WellFormed(c) && forall i | 0 <= i < |rs| :: RedirectionOk(rs[i])
    ensures WellFormed(Wrap(c, rs))
    decreases |rs|
  {
    if rs != [] {
      WrapWell(Redir(c, rs[0]), rs[1..]);
    }
  }

  lemma {:induction false} MovesWell<W>(items: seq<Item<W>>)
    ensures forall i | 0 <= i < |Moves(items)| :: RedirectionOk(Moves(items)[i])
  {
    if items != [] {
      MovesWell(items[1..]);
    }
  }

  lemma {:induction false} BacksWell<W>(c: Cmd<W>, n: nat)
    requires WellFormed(c)
    ensures WellFormed(Backs(c, n))
    decreases n
  {
    if n > 0 {
      BacksWell(Back(c), n - 1);
    }
  }

  lemma {:induction false} UnitWell<W>(u: Unit<W>)
    requires UnitOk(u)
    ensures WellFormed(TreeUnit(u))
    decreases u
  {
    match u
    case Simple(items) =>
      MovesWell(items);
      WrapWell(Exec(Args(items)), Moves(items));
    case Block(line, rs) =>
      LineWell(line);
      WrapWell(TreeLine(line), Meanings(rs));
  }

  lemma {:induction false} PipeWell<W>(p: Pipeline<W>)
    requires PipeOk(p)
    ensures WellFormed(TreePipe(p))
    decreases p
  {
    UnitWell(p.u);
    if p.Bar? {
      PipeWell(p.rest);
    }
  }

  /** A line stands only for such trees. */
  lemma {:induction false} LineWell<W>(l: Line<W>)
    requires LineOk(l)
    ensures WellFormed(TreeLine(l))
    decreases l
  {
    PipeWell(l.p);
    BacksWell(TreePipe(l.p), l.amps);
    if l.Semi? {
      LineWell(l.rest);
    }
  }
}
