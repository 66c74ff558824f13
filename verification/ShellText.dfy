/** Command lines as text: what is written is read back. */
module ShellText {
  import opened ShellGrammar
  import opened ShellWords
  import opened ShellLex
  import opened ShellPhrases

  predicate WordOk(w: string) { w != "" && forall i | 0 <= i < |w| :: WordChar(w[i]) }

  /** All words of the tree can be written as words. */
  predicate WordsOk(t: Cmd<string>) {
    match t
    case Exec(argv) => forall i | 0 <= i < |argv| :: WordOk(argv[i])
    case Redir(c, r) => WordsOk(c) && WordOk(r.file)
    case Pipe(l, r) => WordsOk(l) && WordsOk(r)
    case List(l, r) => WordsOk(l) && WordsOk(r)
    case Back(c) => WordsOk(c)
  }

  /** The text of a line: blanks, then every token with the blanks after it. */
  ghost predicate TextOf(s: string, l: Line<string>, lead: string, gaps: seq<string>) {
    && (forall i | 0 <= i < |lead| :: Blank(lead[i]))
    && Spaced(SpellLine(l), gaps)
    && s == lead + Render(SpellLine(l), gaps)
  }

  ghost predicate TokensOk(ts: seq<Token<string>>) { forall i | 0 <= i < |ts| :: TokenOk(ts[i]) }

  ghost predicate FilesOk(rs: seq<Redirection<string>>) { forall i | 0 <= i < |rs| :: WordOk(rs[i].file) }

  lemma {:induction false} WrapWords(c: Cmd<string>, rs: seq<Redirection<string>>)
    requires WordsOk(Wrap(c, rs))
    ensures WordsOk(c) && FilesOk(rs)
    decreases |rs|
  {
    if rs != [] {
      WrapWords(Redir(c, rs[0]), rs[1..]);
      assert forall i | 1 <= i < |rs| :: rs[i] == rs[1..][i - 1];
    }
  }

  lemma {:induction false} RedirectTokens(rs: seq<Redirect<string>>)
    requires FilesOk(Meanings(rs))
    ensures TokensOk(SpellRedirects(rs))
  {
    if rs != [] {
      assert Meanings(rs[1..]) == Meanings(rs)[1..];
      RedirectTokens(rs[1..]);
      assert WordOk(Meanings(rs)[0].file);
    }
  }

  lemma {:induction false} ItemTokens(items: seq<Item<string>>)
    requires (forall i | 0 <= i < |Args(items)| :: WordOk(Args(items)[i])) && FilesOk(Moves(items))
    ensures TokensOk(SpellItems(items))
  {
    hide SpellItems, Args, Moves, WordOk;
    if items == [] {
      ItemsNone<string>();
    } else {
      var more := items[1..];
      assert items == [items[0]] + more;
      ItemsFirst(items[0], more);
      var a := if items[0].Arg? then 1 else 0;
      assert forall i | 0 <= i < |Args(more)| :: Args(more)[i] == Args(items)[a + i];
      assert forall i | 0 <= i < |Moves(more)| :: Moves(more)[i] == Moves(items)[1 - a + i];
      ItemTokens(more);
      assert TokensOk(SpellItem(items[0])) by { ItemOk(items[0], Args(items), Moves(items)); }
    }
  }

  lemma ItemOk(i: Item<string>, args: seq<string>, moves: seq<Redirection<string>>)
    requires (forall k | 0 <= k < |args| :: WordOk(args[k])) && FilesOk(moves)
    requires if i.Arg? then args != [] && args[0] == i.w else moves != [] && moves[0] == Meaning(i.r)
    ensures TokensOk(SpellItem(i))
  {
  }

  lemma {:induction false} UnitTokens(u: Unit<string>)
    requires WordsOk(TreeUnit(u))
    ensures TokensOk(SpellUnit(u))
    decreases u
  {
    hide Args, Moves, SpellItems, SpellRedirects, SpellLine;
    match u
    case Simple(items) =>
      WrapWords(Exec(Args(items)), Moves(items));
      ItemTokens(items);
    case Block(line, rs) =>
      WrapWords(TreeLine(line), Meanings(rs));
      LineTokens(line);
      RedirectTokens(rs);
  }

  lemma {:induction false} PipeTokens(p: Pipeline<string>)
    requires WordsOk(TreePipe(p))
    ensures TokensOk(SpellPipe(p))
    decreases p
  {
    hide SpellUnit;
    UnitTokens(p.u);
    if p.Bar? {
      PipeTokens(p.rest);
    }
  }

  lemma {:induction false} BacksWords(c: Cmd<string>, n: nat)
    requires WordsOk(Backs(c, n))
    ensures WordsOk(c)
    decreases n
  {
    if n > 0 {
      BacksWords(Back(c), n - 1);
    }
  }

  lemma {:induction false} LineTokens(l: Line<string>)
    requires WordsOk(TreeLine(l))
    ensures TokensOk(SpellLine(l))
    decreases l
  {
    hide SpellPipe;
    BacksWords(TreePipe(l.p), l.amps);
    PipeTokens(l.p);
    if l.Semi? {
      LineTokens(l.rest);
    }
  }

  lemma {:induction false} TextsMap(s: string, ts: seq<Token<Place>>)
    ensures MapTokens((p: Place) => Text(s, p), false, ts) == Texts(s, ts)
  {
    if ts != [] {
      TextsMap(s, ts[1..]);
      MapSlice((p: Place) => Text(s, p), false, ts, 1);
    }
  }

  /** The tree with the text of its words. */
  function Read(s: string, c: Cmd<Place>): Cmd<string> {
    MapCmd((p: Place) => Text(s, p), c)
  }

  /** Every way of writing a line, as text, is parsed to the tree it stands for: redirections by "<",
      ">" or ">>" before, between or after the words, parentheses needed or not, any blanks. */
  lemma RoundTrip(l: Line<string>, s: string, lead: string, gaps: seq<string>)
    requires LineOk(l) && TextOf(s, l, lead, gaps)
    ensures var r := Parse(Lex(s, 0)); r.Ok? && Read(s, r.cmd) == TreeLine(l)
  {
    hide Lex, Texts, Render, SpellLine, TreeLine, LineOk, ParseLine, Spaced;
    Blanks(s, 0, |lead|);
    LexRender(lead, SpellLine(l), gaps);
    var ts := Lex(s, 0);
    TextsMap(s, ts);
    LineRead(l, []);
    assert SpellLine(l) + [] == SpellLine(l);
    ParseMap((p: Place) => Text(s, p), false, ts);
  }

  /** One blank after each token will do. */
  function Gaps(n: nat): (gaps: seq<string>)
    ensures |gaps| == n && forall i | 0 <= i < n :: gaps[i] == " "
  {
    seq(n, _ => " ")
  }

  /** Every well-formed tree can be written as text, and is what the text is parsed to. */
  lemma PrintedTrip(t: Cmd<string>)
    requires WellFormed(t) && WordsOk(t)
    ensures
      var ts := SpellLine(PrintLine(t));
      var s := Render(ts, Gaps(|ts|));
      var r := Parse(Lex(s, 0));
      r.Ok? && Read(s, r.cmd) == t
  {
    hide Lex, Render, SpellLine, PrintLine, TreeLine, LineOk, WordsOk, Parse, TokenOk;
    PrintedLine(t);
    var l := PrintLine(t);
    var ts := SpellLine(l);
    LineTokens(l);
    var s := Render(ts, Gaps(|ts|));
    assert "" + s == s;
    RoundTrip(l, s, "", Gaps(|ts|));
  }
}
