/** Tokens of src/sh.c in a line of text without NUL characters. */
module ShellLex {
  import opened ShellGrammar
  import opened ShellWords

  /** A word by its first position and the one after its last. */
  datatype Place = Place(q: nat, eq: nat)

  predicate White(c: char) { c in [' ', '\t', '\r', '\n', 11 as char] }

  predicate Symbol(c: char) { c in "<|>&;()" }

  predicate Plain(c: char) { !White(c) && !Symbol(c) }

  /** The first position from i on that is not white space. */
  function Skip(s: string, i: nat): (j: nat)
    requires i <= |s|
    ensures i <= j <= |s| && (forall k | i <= k < j :: White(s[k])) && (j < |s| ==> !White(s[j]))
    decreases |s| - i
  {
    if i < |s| && White(s[i]) then Skip(s, i + 1) else i
  }

  /** The first position from i on that is not part of a word. */
  function WordEnd(s: string, i: nat): (j: nat)
    requires i <= |s|
    ensures i <= j <= |s| && (forall k | i <= k < j :: Plain(s[k])) && (j < |s| ==> !Plain(s[j]))
    decreases |s| - i
  {
    if i < |s| && Plain(s[i]) then WordEnd(s, i + 1) else i
  }

  /** The end of the token that starts at j. */
  function TokenEnd(s: string, j: nat): (e: nat)
    requires j < |s| && !White(s[j])
    ensures j < e <= |s|
  {
    if s[j] == '>' then (if j + 1 < |s| && s[j + 1] == '>' then j + 2 else j + 1)
    else if Symbol(s[j]) then j + 1
    else WordEnd(s, j)
  }

  function TokenAt(s: string, j: nat): Token<Place>
    requires j < |s| && !White(s[j])
  {
    if s[j] == '>' then (if j + 1 < |s| && s[j + 1] == '>' then Append else Sym('>'))
    else if Symbol(s[j]) then Sym(s[j])
    else Word(Place(j, WordEnd(s, j)))
  }

  /** The tokens from position i on. */
  function Lex(s: string, i: nat): (ts: seq<Token<Place>>)
    requires i <= |s|
    decreases |s| - i
  {
    var j := Skip(s, i);
    if j == |s| then [] else [TokenAt(s, j)] + Lex(s, TokenEnd(s, j))
  }

  // White space before a token does not matter.
  lemma {:induction false} LexSkip(s: string, i: nat, j: nat)
    requires i <= |s| && i <= j <= Skip(s, i)
    ensures Lex(s, i) == Lex(s, j)
    decreases j - i
  {
    if i < j {
      LexSkip(s, i + 1, j);
    }
  }

  /** The text of a word. */
  function Text(s: string, p: Place): string {
    if p.q <= p.eq <= |s| then s[p.q..p.eq] else ""
  }

  /** Words are maximal: each lies in the line from i on, and different ones are apart. */
  lemma {:induction false} WordsApart(s: string, i: nat, a: nat, b: nat)
    requires i <= |s| && a < |Lex(s, i)| && b < |Lex(s, i)| && Lex(s, i)[a].Word? && Lex(s, i)[b].Word?
    ensures var p, r := Lex(s, i)[a].w, Lex(s, i)[b].w;
      && i <= p.q < p.eq <= |s| && i <= r.q < r.eq <= |s|
      && (a < b ==> p.eq < r.q) && (b < a ==> r.eq < p.q)
    decreases |s| - i, 1
  {
    var j := Skip(s, i);
    var e := TokenEnd(s, j);
    var rest := Lex(s, e);
    assert Lex(s, i) == [TokenAt(s, j)] + rest;
    if a > 0 || b > 0 {
      WordsApart(s, e, if a > 0 then a - 1 else b - 1, if b > 0 then b - 1 else a - 1);
      if Lex(s, i)[0].Word? {
        NextStartsLater(s, e, (if a > 0 then a else b) - 1);
      }
    }
  }

  // After the end of a word no other word starts at once.
  lemma {:induction false} NextStartsLater(s: string, e: nat, a: nat)
    requires e <= |s| && (e < |s| ==> !Plain(s[e])) && a < |Lex(s, e)| && Lex(s, e)[a].Word?
    ensures e < Lex(s, e)[a].w.q
    decreases |s| - e, 0
  {
    var j := Skip(s, e);
    assert Lex(s, e) == [TokenAt(s, j)] + Lex(s, TokenEnd(s, j));
    if a > 0 {
      WordsApart(s, TokenEnd(s, j), a - 1, a - 1);
    }
  }

  // ----- writing tokens out -----

  /** The five characters that separate words. */
  predicate Blank(c: char) { c == ' ' || c == '\t' || c == '\r' || c == '\n' || c == 11 as char }

  predicate WordChar(c: char) { !Blank(c) && c !in "<|>&;()" }

  predicate TokenOk(t: Token<string>) {
    match t
    case Word(w) => w != "" && forall i | 0 <= i < |w| :: WordChar(w[i])
    case Sym(c) => c in "<|>&;()"
    case Append => true
  }

  function Spell(t: Token<string>): string {
    match t
    case Word(w) => w
    case Sym(c) => [c]
    case Append => ">>"
  }

  /** Without a blank between them these would be read as something else. */
  predicate Joins(t: Token<string>, u: Token<string>) {
    (t.Word? && u.Word?) || (t == Sym('>') && (u == Sym('>') || u == Append))
  }

  /** Blanks after each token: any number of any kind, and at least one where tokens would join. */
  ghost predicate Spaced(ts: seq<Token<string>>, gaps: seq<string>) {
    && |gaps| == |ts|
    && (forall i | 0 <= i < |ts| :: TokenOk(ts[i]))
    && (forall i | 0 <= i < |ts| :: forall k | 0 <= k < |gaps[i]| :: Blank(gaps[i][k]))
    && (forall i | 0 <= i < |ts| - 1 && Joins(ts[i], ts[i + 1]) :: gaps[i] != "")
  }

  /** Each token followed by its blanks. */
  function Render(ts: seq<Token<string>>, gaps: seq<string>): string
    requires |gaps| == |ts|
  {
    if ts == [] then "" else Spell(ts[0]) + gaps[0] + Render(ts[1..], gaps[1..])
  }

  function TextToken(s: string, t: Token<Place>): Token<string> {
    match t
    case Word(p) => Word(Text(s, p))
    case Sym(c) => Sym(c)
    case Append => Append
  }

  /** The tokens with the text of their words. */
  function Texts(s: string, ts: seq<Token<Place>>): seq<Token<string>> {
    if ts == [] then [] else [TextToken(s, ts[0])] + Texts(s, ts[1..])
  }

  /** Token t stops before position e. */
  predicate Stops(s: string, e: nat, t: Token<string>)
    requires e <= |s|
  {
    e < |s| ==> (t.Word? ==> !WordChar(s[e])) && (t == Sym('>') ==> s[e] != '>')
  }

  lemma SpelledOne(s: string, j: nat, t: Token<string>)
    requires TokenOk(t) && j + |Spell(t)| <= |s| && s[j..j + |Spell(t)|] == Spell(t) && Stops(s, j + |Spell(t)|, t)
    ensures j < |s| && !White(s[j]) && TokenEnd(s, j) == j + |Spell(t)| && TextToken(s, TokenAt(s, j)) == t
  {
    var w := Spell(t);
    assert forall k | 0 <= k < |w| :: s[j + k] == w[k];
    if t.Word? {
      assert forall k | j <= k < j + |w| :: s[k] == w[k - j];
      assert s[j] == w[0];
    }
  }

  /** A token and the blanks after it. */
  lemma LexOne(s: string, j: nat, t: Token<string>, f: nat)
    requires TokenOk(t) && j + |Spell(t)| <= f <= |s| && s[j..j + |Spell(t)|] == Spell(t) && Stops(s, j + |Spell(t)|, t)
    requires forall k | j + |Spell(t)| <= k < f :: Blank(s[k])
    ensures Texts(s, Lex(s, j)) == [t] + Texts(s, Lex(s, f))
  {
    hide TokenOk, Spell, TokenAt, TokenEnd, TextToken, Stops;
    SpelledOne(s, j, t);
    var e := j + |Spell(t)|;
    Blanks(s, e, f);
    assert Skip(s, j) == j;
    var rest := Lex(s, f);
    assert Lex(s, j) == [TokenAt(s, j)] + rest;
    assert ([TokenAt(s, j)] + rest)[1..] == rest;
  }

  lemma Blanks(s: string, e: nat, f: nat)
    requires e <= f <= |s| && forall k | e <= k < f :: Blank(s[k])
    ensures Lex(s, e) == Lex(s, f)
  {
    assert forall k | e <= k < f :: White(s[k]);
    LexSkip(s, e, f);
  }

  lemma RenderSplits(ts: seq<Token<string>>, gaps: seq<string>)
    requires Spaced(ts, gaps) && ts != []
    ensures Render(ts, gaps) == Spell(ts[0]) + gaps[0] + Render(ts[1..], gaps[1..]) && Spaced(ts[1..], gaps[1..])
    ensures Stops(Render(ts, gaps), |Spell(ts[0])|, ts[0])
  {
    hide TokenOk;
    var r := Render(ts[1..], gaps[1..]);
    var s, w := Spell(ts[0]) + gaps[0] + r, Spell(ts[0]);
    assert forall i | 0 <= i < |ts| - 1 :: ts[1..][i] == ts[i + 1] && gaps[1..][i] == gaps[i + 1];
    if gaps[0] != "" {
      assert s[|w|] == gaps[0][0];
    } else if |ts| > 1 {
      assert s[|w|..] == r;
      Starts(ts[1..], gaps[1..]);
      assert s[|w|] == r[0];
      assert !Joins(ts[0], ts[1]);
    }
  }

  lemma Starts(ts: seq<Token<string>>, gaps: seq<string>)
    requires Spaced(ts, gaps) && ts != []
    ensures Render(ts, gaps) != ""
    ensures ts[0].Sym? ==> Render(ts, gaps)[0] == ts[0].c && ts[0].c in "<|>&;()"
    ensures ts[0].Append? ==> Render(ts, gaps)[0] == '>'
    ensures ts[0].Word? ==> WordChar(Render(ts, gaps)[0])
  {
    var w := Spell(ts[0]);
    assert TokenOk(ts[0]) && w != "";
    assert Render(ts, gaps)[0] == w[0];
  }

  /** What is written out is read back. */
  lemma {:induction false} LexRender(before: string, ts: seq<Token<string>>, gaps: seq<string>)
    requires Spaced(ts, gaps)
    ensures var s := before + Render(ts, gaps); Texts(s, Lex(s, |before|)) == ts
    decreases |ts|
  {
    hide TokenOk, Spell, Lex, Texts, Joins, Stops, Render;
    var s, j := before + Render(ts, gaps), |before|;
    if ts == [] {
      EmptyRender();
      assert s == before;
      LexNothing(s);
    } else {
      RenderSplits(ts, gaps);
      var w, r := Spell(ts[0]), Render(ts[1..], gaps[1..]);
      assert s == before + w + gaps[0] + r;
      assert s[j..j + |w|] == w;
      StopsAfter(before, Render(ts, gaps), |w|, ts[0]);
      var next := before + w + gaps[0];
      assert forall k | j + |w| <= k < |next| :: s[k] == gaps[0][k - j - |w|];
      LexOne(s, j, ts[0], |next|);
      LexRender(next, ts[1..], gaps[1..]);
      assert next + r == s;
    }
  }

  lemma StopsAfter(before: string, s: string, e: nat, t: Token<string>)
    requires e <= |s| && Stops(s, e, t)
    ensures Stops(before + s, |before| + e, t)
  {
  }

  lemma EmptyRender()
    ensures Render([], []) == ""
  {
  }

  lemma LexNothing(s: string)
    ensures Texts(s, Lex(s, |s|)) == []
  {
  }
}
