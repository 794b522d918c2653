/**
 The regular expressions of xv6/grep.c (chapter 9 of The Practice of Programming): literals, dot, star,
 ^ and a final $.  Patterns and texts are strings without a NUL.
 */
module Grep {
  datatype Item = One(c: char) | Star(c: char)

  /** The items of a pattern, without a final $. */
  function Items(re: string): seq<Item> {
    if re == "" then []
    else if |re| > 1 && re[1] == '*' then [Star(re[0])] + Items(re[2..])
    else if re == "$" then []
    else [One(re[0])] + Items(re[1..])
  }

  /** The pattern ends in a $ that stands for the end of the text. */
  predicate AtEnd(re: string) {
    if re == "" then false
    else if |re| > 1 && re[1] == '*' then AtEnd(re[2..])
    else if re == "$" then true
    else AtEnd(re[1..])
  }

  predicate Accepts(c: char, x: char) {
    c == '.' || c == x
  }

  /** The strings that match a single item. */
  ghost predicate Has(item: Item, w: string) {
    (item.One? ==> |w| == 1) && forall k :: 0 <= k < |w| ==> Accepts(item.c, w[k])
  }

  function Flatten(pieces: seq<string>): string {
    if pieces == [] then "" else pieces[0] + Flatten(pieces[1..])
  }

  ghost predicate Pieces(items: seq<Item>, pieces: seq<string>, w: string) {
    |pieces| == |items| && Flatten(pieces) == w && forall i :: 0 <= i < |items| ==> Has(items[i], pieces[i])
  }

  /** w is a concatenation of strings that match the items in turn. */
  ghost predicate InLanguage(items: seq<Item>, w: string) {
    exists pieces :: Pieces(items, pieces, w)
  }

  /** The piece of text from i up to j matches the pattern. */
  ghost predicate MatchesAt(re: string, text: string, i: nat, j: nat)
    requires i <= j <= |text|
  {
    InLanguage(Items(re), text[i..j]) && (AtEnd(re) ==> j == |text|)
  }

  ghost predicate Here(re: string, text: string) {
    exists j :: 0 <= j <= |text| && MatchesAt(re, text, 0, j)
  }

  lemma Split(item: Item, rest: seq<Item>, w: string)
    requires InLanguage([item] + rest, w)
    ensures exists n :: 0 <= n <= |w| && Has(item, w[..n]) && InLanguage(rest, w[n..])
  {
    var items := [item] + rest;
    var pieces :| Pieces(items, pieces, w);
    var n := |pieces[0]|;
    assert w[..n] == pieces[0] && w[n..] == Flatten(pieces[1..]);
    assert items[0] == item;
    forall i | 0 <= i < |rest|
      ensures Has(rest[i], pieces[1..][i])
    {
      assert Has(items[i + 1], pieces[i + 1]);
    }
    assert Pieces(rest, pieces[1..], w[n..]);
  }

  lemma Joined(item: Item, rest: seq<Item>, a: string, b: string)
    requires Has(item, a) && InLanguage(rest, b)
    ensures InLanguage([item] + rest, a + b)
  {
    var pieces :| Pieces(rest, pieces, b);
    var all := [a] + pieces;
    assert all[1..] == pieces;
    assert Pieces([item] + rest, all, a + b);
  }

  lemma HereEmpty(text: string)
    ensures Here("", text)
  {
    assert Pieces([], [], text[0..0]);
    assert MatchesAt("", text, 0, 0);
  }

  lemma HereEnd(text: string)
    ensures Here("$", text) <==> text == ""
  {
    if text == "" {
      assert Pieces([], [], text[0..0]);
      assert MatchesAt("$", text, 0, 0);
    }
  }

  predicate IsStar(re: string) {
    |re| > 1 && re[1] == '*'
  }

  predicate IsOne(re: string) {
    re != "" && !IsStar(re) && re != "$"
  }

  function First(re: string): Item
    requires IsStar(re) || IsOne(re)
  {
    if IsStar(re) then Star(re[0]) else One(re[0])
  }

  function After(re: string): string
    requires IsStar(re) || IsOne(re)
  {
    if IsStar(re) then re[2..] else re[1..]
  }

  /** A pattern that starts with an item matches here exactly if a first part of the text matches the item and
      the rest of the pattern matches what follows. */
  lemma HereItem(re: string, text: string)
    requires IsStar(re) || IsOne(re)
    ensures Here(re, text) <==> exists n :: 0 <= n <= |text| && Has(First(re), text[..n]) && Here(After(re), text[n..])
  {
    if Here(re, text) {
      var _ := ItemOff(re, text);
    }
    if n :| 0 <= n <= |text| && Has(First(re), text[..n]) && Here(After(re), text[n..]) {
      ItemOn(re, text, n);
    }
  }

  lemma ItemOff(re: string, text: string) returns (n: nat)
    requires (IsStar(re) || IsOne(re)) && Here(re, text)
    ensures n <= |text| && Has(First(re), text[..n]) && Here(After(re), text[n..])
  {
    var j :| 0 <= j <= |text| && MatchesAt(re, text, 0, j);
    Split(First(re), Items(After(re)), text[0..j]);
    n :| 0 <= n <= j && Has(First(re), text[0..j][..n]) && InLanguage(Items(After(re)), text[0..j][n..]);
    assert text[0..j][..n] == text[..n] && text[0..j][n..] == text[n..][0..j - n];
    assert MatchesAt(After(re), text[n..], 0, j - n);
  }

  lemma ItemOn(re: string, text: string, n: nat)
    requires (IsStar(re) || IsOne(re)) && n <= |text| && Has(First(re), text[..n]) && Here(After(re), text[n..])
    ensures Here(re, text)
  {
    var rest := text[n..];
    var j :| 0 <= j <= |rest| && MatchesAt(After(re), rest, 0, j);
    Joined(First(re), Items(After(re)), text[..n], rest[0..j]);
    assert text[..n] + rest[0..j] == text[0..n + j];
    assert MatchesAt(re, text, 0, n + j);
  }

  lemma HereOne(re: string, text: string)
    requires IsOne(re)
    ensures Here(re, text) <==> text != "" && Accepts(re[0], text[0]) && Here(re[1..], text[1..])
  {
    HereItem(re, text);
    if text != "" && Accepts(re[0], text[0]) && Here(re[1..], text[1..]) {
      assert Has(First(re), text[..1]);
    }
  }

  method MatchHere(re: string, text: string) returns (b: bool)
    ensures b <==> Here(re, text)
    decreases |re|, 1
  {
    if re == "" {
      HereEmpty(text);
      return true;
    }
    if |re| > 1 && re[1] == '*' {
      HereItem(re, text);
      b := MatchStar(re[0], re[2..], text);
      return;
    }
    if re == "$" {
      HereEnd(text);
      return text == "";
    }
    HereOne(re, text);
    if text != "" && (re[0] == '.' || re[0] == text[0]) {
      b := MatchHere(re[1..], text[1..]);
      return;
    }
    return false;
  }

  method MatchStar(c: char, re: string, text: string) returns (b: bool)
    ensures b <==> exists n :: 0 <= n <= |text| && Has(Star(c), text[..n]) && Here(re, text[n..])
    decreases |re|, 2
  {
    var t := 0;
    while true
      invariant 0 <= t <= |text| && Has(Star(c), text[..t])
      invariant forall n :: 0 <= n < t ==> !Here(re, text[n..])
      decreases |text| - t
    {
      b := MatchHere(re, text[t..]);
      if b { return; }
      if t == |text| || !(text[t] == c || c == '.') {
        assert forall n :: t < n <= |text| ==> text[..n][t] == text[t];
        return;
      }
      t := t + 1;
    }
  }

  /** match: the pattern is found in the text, at its start if it begins with ^. */
  method Match(re: string, text: string) returns (b: bool)
    ensures re != "" && re[0] == '^' ==> (b <==> exists j :: 0 <= j <= |text| && MatchesAt(re[1..], text, 0, j))
    ensures !(re != "" && re[0] == '^') ==> (b <==> exists i, j :: 0 <= i <= j <= |text| && MatchesAt(re, text, i, j))
  {
    if re != "" && re[0] == '^' {
      b := MatchHere(re[1..], text);
      return;
    }
    var t := 0;
    while true
      invariant 0 <= t <= |text|
      invariant forall i, j :: 0 <= i < t && i <= j <= |text| ==> !MatchesAt(re, text, i, j)
      decreases |text| - t
    {
      b := MatchHere(re, text[t..]);
      if b {
        ghost var j :| 0 <= j <= |text[t..]| && MatchesAt(re, text[t..], 0, j);
        assert text[t..][0..j] == text[t..t + j];
        assert MatchesAt(re, text, t, t + j);
        return;
      }
      forall j | t <= j <= |text|
        ensures !MatchesAt(re, text, t, j)
      {
        assert text[t..][0..j - t] == text[t..j];
        assert !MatchesAt(re, text[t..], 0, j - t);
      }
      if t == |text| { return; }
      t := t + 1;
    }
  }
}
