/** The regular-expression matcher of grep: literals, `.`, `c*`, a leading `^`
    and a final `$`.

    A C string is a sequence without NUL; reading its terminator is reading past
    the end of the sequence. */
module Grep {

  type CString = s: string | forall i :: 0 <= i < |s| ==> s[i] != '\0'

  /** What one piece of a pattern asks for. */
  datatype Item = One(c: char) | Star(c: char) | End

  /** The items of a pattern. A character followed by `*` is a star whatever the
      character is, so `$*` is a star of dollars and a leading `*` is a literal. */
  function Items(re: CString): seq<Item>
    decreases |re|
  {
    if |re| == 0 then []
    else if |re| >= 2 && re[1] == '*' then [Star(re[0])] + Items(re[2..])
    else if |re| == 1 && re[0] == '$' then [End]
    else [One(re[0])] + Items(re[1..])
  }

  predicate Accepts(c: char, x: char) {
    c == '.' || c == x
  }

  /** `piece` is a word of the language of one item. */
  predicate InLanguage(item: Item, piece: string) {
    match item
    case One(c) => |piece| == 1 && Accepts(c, piece[0])
    case Star(c) => forall i :: 0 <= i < |piece| ==> Accepts(c, piece[i])
    case End => piece == ""
  }

  function Join(pieces: seq<string>): string {
    if pieces == [] then "" else pieces[0] + Join(pieces[1..])
  }

  /** `pieces` is one word per item and their concatenation is a prefix of `text`,
      the whole of it when the items end with `$`. */
  ghost predicate Fits(items: seq<Item>, pieces: seq<string>, text: string) {
    && |pieces| == |items|
    && (forall i :: 0 <= i < |items| ==> InLanguage(items[i], pieces[i]))
    && Join(pieces) <= text
    && (items != [] && items[|items| - 1] == End ==> Join(pieces) == text)
  }

  /** The pattern matches some prefix of `text`. */
  ghost predicate MatchesHere(re: CString, text: CString) {
    exists pieces :: Fits(Items(re), pieces, text)
  }

  /** The pattern matches somewhere in `text`; `^` pins the match to its start. */
  ghost predicate Matches(re: CString, text: CString) {
    if |re| > 0 && re[0] == '^' then MatchesHere(re[1..], text)
    else exists k :: 0 <= k <= |text| && MatchesHere(re, text[k..])
  }

  /** A match of `c*` followed by `rest` takes some number of accepted characters. */
  ghost predicate MatchesStar(c: char, rest: CString, text: CString) {
    exists k :: 0 <= k <= |text| && (forall i :: 0 <= i < k ==> Accepts(c, text[i])) && MatchesHere(rest, text[k..])
  }

  lemma FitsCons(item: Item, rest: seq<Item>, piece: string, pieces: seq<string>, text: string)
    requires item != End
    requires InLanguage(item, piece) && piece <= text
    requires Fits(rest, pieces, text[|piece|..])
    ensures Fits([item] + rest, [piece] + pieces, text)
  {
    var all := [piece] + pieces;
    assert all[1..] == pieces;
    assert text == piece + text[|piece|..];
    assert Join(all) == piece + Join(pieces);
    var items := [item] + rest;
    if rest != [] {
      assert items[|items| - 1] == rest[|rest| - 1];
    }
  }

  lemma FitsUncons(item: Item, rest: seq<Item>, pieces: seq<string>, text: string)
    requires item != End || rest != []
    requires Fits([item] + rest, pieces, text)
    ensures InLanguage(item, pieces[0]) && pieces[0] <= text
    ensures Fits(rest, pieces[1..], text[|pieces[0]|..])
  {
    var items := [item] + rest;
    assert items[0] == item && items[1..] == rest;
    assert Join(pieces) == pieces[0] + Join(pieces[1..]);
    assert text[..|pieces[0]|] == Join(pieces)[..|pieces[0]|] == pieces[0];
    assert text == pieces[0] + text[|pieces[0]|..];
    forall i | 0 <= i < |rest| ensures InLanguage(rest[i], pieces[1..][i]) {
      assert rest[i] == items[i + 1];
    }
    if rest != [] {
      assert items[|items| - 1] == rest[|rest| - 1];
    }
  }

  /** The empty pattern matches everywhere. */
  lemma EmptyPattern(text: CString)
    ensures MatchesHere("", text)
  {
    assert Fits(Items(""), [], text);
  }

  /** `$` alone matches exactly the empty text. */
  lemma DollarPattern(text: CString)
    ensures MatchesHere("$", text) <==> text == ""
  {
    if text == "" {
      assert Join([""]) == "" + Join([""][1..]);
      assert Fits(Items("$"), [""], text);
    }
    if MatchesHere("$", text) {
      var pieces :| Fits(Items("$"), pieces, text);
      assert Join(pieces) == pieces[0] + Join(pieces[1..]);
    }
  }

  /** A single-character item consumes one accepted character. */
  lemma OnePattern(re: CString, text: CString)
    requires |re| > 0 && !(|re| >= 2 && re[1] == '*') && re != "$"
    ensures MatchesHere(re, text) <==> |text| > 0 && Accepts(re[0], text[0]) && MatchesHere(re[1..], text[1..])
  {
    var item, rest := One(re[0]), Items(re[1..]);
    assert Items(re) == [item] + rest;
    if MatchesHere(re, text) {
      var pieces :| Fits(Items(re), pieces, text);
      FitsUncons(item, rest, pieces, text);
      assert text[0] == pieces[0][0];
    }
    if |text| > 0 && Accepts(re[0], text[0]) && MatchesHere(re[1..], text[1..]) {
      var pieces :| Fits(rest, pieces, text[1..]);
      FitsCons(item, rest, text[..1], pieces, text);
    }
  }

  /** A starred item is MatchesStar. */
  lemma StarPattern(re: CString, text: CString)
    requires |re| >= 2 && re[1] == '*'
    ensures MatchesHere(re, text) <==> MatchesStar(re[0], re[2..], text)
  {
    var item, rest := Star(re[0]), Items(re[2..]);
    assert Items(re) == [item] + rest;
    if MatchesHere(re, text) {
      var pieces :| Fits(Items(re), pieces, text);
      FitsUncons(item, rest, pieces, text);
      var k := |pieces[0]|;
      assert text[..k] == pieces[0];
      assert forall i :: 0 <= i < k ==> text[i] == pieces[0][i];
      assert Fits(rest, pieces[1..], text[k..]);
    }
    if MatchesStar(re[0], re[2..], text) {
      var k :| 0 <= k <= |text| && (forall i :: 0 <= i < k ==> Accepts(re[0], text[i])) && MatchesHere(re[2..], text[k..]);
      var pieces :| Fits(rest, pieces, text[k..]);
      FitsCons(item, rest, text[..k], pieces, text);
    }
  }

  method Match(re: CString, text: CString) returns (r: bool)
    ensures r <==> Matches(re, text)
  {
    if |re| > 0 && re[0] == '^' {
      r := MatchHere(re[1..], text);
      return;
    }
    var t := 0;
    while true
      invariant 0 <= t <= |text|
      invariant forall k :: 0 <= k < t ==> !MatchesHere(re, text[k..])
      decreases |text| - t
    {
      var here := MatchHere(re, text[t..]);
      if here {
        return true;
      }
      if t == |text| {
        return false;
      }
      t := t + 1;
    }
  }

  method MatchHere(re: CString, text: CString) returns (r: bool)
    ensures r <==> MatchesHere(re, text)
    decreases |re|, 0
  {
    if |re| == 0 {
      EmptyPattern(text);
      return true;
    }
    if |re| >= 2 && re[1] == '*' {
      StarPattern(re, text);
      r := MatchStar(re[0], re[2..], text);
      return;
    }
    if re[0] == '$' && |re| == 1 {
      assert re == "$";
      DollarPattern(text);
      return |text| == 0;
    }
    OnePattern(re, text);
    if |text| > 0 && (re[0] == '.' || re[0] == text[0]) {
      r := MatchHere(re[1..], text[1..]);
      return;
    }
    return false;
  }

  method MatchStar(c: char, re: CString, text: CString) returns (r: bool)
    ensures r <==> MatchesStar(c, re, text)
    decreases |re|, 1
  {
    var t := 0;
    while true
      invariant 0 <= t <= |text|
      invariant forall i :: 0 <= i < t ==> Accepts(c, text[i])
      invariant forall k :: 0 <= k < t ==> !MatchesHere(re, text[k..])
      decreases |text| - t
    {
      var here := MatchHere(re, text[t..]);
      if here {
        return true;
      }
      if t == |text| || !(text[t] == c || c == '.') {
        return false;
      }
      t := t + 1;
    }
  }
}
