/** The regular expression matcher of src/grep.c. Strings are without their terminating NUL. */
module Grep {

  /** What a pattern consists of: a character, a repeated character, or a final '$'. */
  datatype Item = One(c: char) | Star(c: char) | End

  function Items(re: string): (r: seq<Item>)
    ensures forall i | 0 <= i < |r| - 1 :: !r[i].End?
  {
    if re == "" then []
    else if |re| > 1 && re[1] == '*' then [Star(re[0])] + Items(re[2..])
    else if re == "$" then [End]
    else [One(re[0])] + Items(re[1..])
  }

  predicate Is(c: char, x: char) { c == '.' || c == x }

  predicate AllAre(c: char, s: string) { forall i | 0 <= i < |s| :: Is(c, s[i]) }

  /** The strings an item stands for. */
  predicate Fit(item: Item, piece: string) {
    match item
    case One(c) => |piece| == 1 && Is(c, piece[0])
    case Star(c) => AllAre(c, piece)
    case End => piece == ""
  }

  predicate Fits(items: seq<Item>, pieces: seq<string>) {
    |pieces| == |items| && forall i | 0 <= i < |items| :: Fit(items[i], pieces[i])
  }

  function Concat(pieces: seq<string>): string {
    if pieces == [] then "" else pieces[0] + Concat(pieces[1..])
  }

  predicate Anchored(items: seq<Item>) { items != [] && items[|items| - 1].End? }

  ghost predicate Splits(items: seq<Item>, pieces: seq<string>, text: string) {
    Fits(items, pieces) && if Anchored(items) then Concat(pieces) == text else Concat(pieces) <= text
  }

  /** text begins with a string of the pattern's language, and is one if the pattern ends in '$'. */
  ghost predicate Begins(items: seq<Item>, text: string) {
    exists pieces :: Splits(items, pieces, text)
  }

  /** The meaning of a pattern: '^' ties it to the beginning of the text. */
  ghost predicate Matches(re: string, text: string) {
    if re != "" && re[0] == '^' then Begins(Items(re[1..]), text)
    else exists k :: 0 <= k <= |text| && Begins(Items(re), text[k..])
  }

  // ----- the meaning, item by item -----

  lemma EmptyBegins(text: string)
    ensures Begins([], text)
  {
    assert Splits([], [], text);
  }

  lemma EndBegins(text: string)
    ensures Begins([End], text) <==> text == ""
  {
    if text == "" {
      assert Splits([End], [""], text);
    }
    forall pieces | Splits([End], pieces, text) ensures text == "" {
      assert Fit([End][0], pieces[0]) && pieces == [""];
      assert Concat([""]) == "" + Concat([""][1..]);
    }
  }

  // A split of the rest, with a piece for the first item put before it.
  lemma SplitCons(item: Item, rest: seq<Item>, piece: string, pieces: seq<string>, text: string)
    requires !item.End?
    ensures Splits([item] + rest, [piece] + pieces, piece + text) <==> Fit(item, piece) && Splits(rest, pieces, text)
  {
    var items, all := [item] + rest, [piece] + pieces;
    assert all[1..] == pieces && items[1..] == rest;
    assert Anchored(items) <==> Anchored(rest);
    var c := Concat(pieces);
    assert Concat(all) == piece + c;
    assert (piece + c)[|piece|..] == c && (piece + text)[|piece|..] == text;
    assert piece + c <= piece + text <==> c <= text by {
      if piece + c <= piece + text {
        assert text[..|c|] == (piece + text)[|piece|..|piece| + |c|] == (piece + c)[|piece|..];
      }
    }
    if Fits(items, all) {
      assert Fit(items[0], all[0]);
      forall i | 0 <= i < |rest| ensures Fit(rest[i], pieces[i]) {
        assert Fit(items[i + 1], all[i + 1]);
      }
    }
  }

  // The first piece of a split is a beginning of the text.
  lemma SplitHead(item: Item, rest: seq<Item>, pieces: seq<string>, text: string)
    requires Splits([item] + rest, pieces, text)
    ensures pieces != [] && |pieces[0]| <= |text| && pieces[0] == text[..|pieces[0]|]
  {
    assert Concat(pieces) == pieces[0] + Concat(pieces[1..]);
    assert Concat(pieces) <= text;
  }

  lemma ConsBegins(item: Item, rest: seq<Item>, text: string)
    requires !item.End?
    ensures Begins([item] + rest, text) <==>
      exists k :: 0 <= k <= |text| && Fit(item, text[..k]) && Begins(rest, text[k..])
  {
    forall pieces | Splits([item] + rest, pieces, text)
      ensures exists k :: 0 <= k <= |text| && Fit(item, text[..k]) && Begins(rest, text[k..])
    {
      SplitHead(item, rest, pieces, text);
      var k := |pieces[0]|;
      assert pieces == [pieces[0]] + pieces[1..] && text == pieces[0] + text[k..];
      SplitCons(item, rest, pieces[0], pieces[1..], text[k..]);
      assert Fit(item, text[..k]) && Begins(rest, text[k..]);
    }
    forall k | 0 <= k <= |text| && Fit(item, text[..k]) && Begins(rest, text[k..])
      ensures Begins([item] + rest, text)
    {
      var pieces :| Splits(rest, pieces, text[k..]);
      assert text == text[..k] + text[k..];
      SplitCons(item, rest, text[..k], pieces, text[k..]);
    }
  }

  lemma OneBegins(c: char, rest: seq<Item>, text: string)
    ensures Begins([One(c)] + rest, text) <==> text != "" && Is(c, text[0]) && Begins(rest, text[1..])
  {
    ConsBegins(One(c), rest, text);
    if text != "" && Is(c, text[0]) && Begins(rest, text[1..]) {
      assert Fit(One(c), text[..1]);
    }
  }

  // ----- the code -----

  /** Does the text begin with the pattern? */
  method MatchHere(re: string, text: string) returns (r: bool)
    ensures r <==> Begins(Items(re), text)
    decreases |re|, 0
  {
    if re == "" {
      EmptyBegins(text);
      return true;
    }
    if |re| > 1 && re[1] == '*' {
      r := MatchStar(re[0], re[2..], text);
      return;
    }
    if re[0] == '$' && |re| == 1 {
      EndBegins(text);
      return text == "";
    }
    OneBegins(re[0], Items(re[1..]), text);
    if text != "" && (re[0] == '.' || re[0] == text[0]) {
      r := MatchHere(re[1..], text[1..]);
      return;
    }
    r := false;
  }

  /** Does the text begin with c* and then the pattern? Shorter runs of c are tried first. */
  method MatchStar(c: char, re: string, text: string) returns (r: bool)
    ensures r <==> Begins([Star(c)] + Items(re), text)
    decreases |re|, 1
  {
    ConsBegins(Star(c), Items(re), text);
    var k := 0;
    while true
      invariant 0 <= k <= |text| && AllAre(c, text[..k])
      invariant forall j | 0 <= j < k :: !Begins(Items(re), text[j..])
      decreases |text| - k
    {
      r := MatchHere(re, text[k..]);
      if r {
        assert Fit(Star(c), text[..k]);
        return;
      }
      if k == |text| || !(text[k] == c || c == '.') {
        break;
      }
      k := k + 1;
    }
    forall j | 0 <= j <= |text| && Fit(Star(c), text[..j]) ensures !Begins(Items(re), text[j..]) {
      assert forall i | 0 <= i < j :: Is(c, text[..j][i]) && text[..j][i] == text[i];
    }
  }

  /** Does the pattern match anywhere in the text? */
  method Match(re: string, text: string) returns (r: bool)
    ensures r <==> Matches(re, text)
  {
    if re != "" && re[0] == '^' {
      r := MatchHere(re[1..], text);
      return;
    }
    var k := 0;
    while true
      invariant 0 <= k <= |text|
      invariant forall j | 0 <= j < k :: !Begins(Items(re), text[j..])
      decreases |text| - k
    {
      r := MatchHere(re, text[k..]);
      if r || k == |text| {
        return;
      }
      k := k + 1;
    }
  }
}
