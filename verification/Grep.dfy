/** The regular-expression matcher (grep.c), against the language of the pattern.
    A C string is the sequence of its characters, without the final NUL. */
module Grep {

  /** One character, or any number of them; '.' stands for every character. */
  datatype Item = One(c: char) | Star(c: char)

  predicate Fits(c: char, x: char) { c == '.' || c == x }

  /** The items of a pattern. A character followed by '*' comes before every other
      reading, then a final '$', which is not an item. */
  function Items(re: string): seq<Item> {
    if re == "" then []
    else if |re| >= 2 && re[1] == '*' then [Star(re[0])] + Items(re[2..])
    else if re == "$" then []
    else [One(re[0])] + Items(re[1..])
  }

  /** Whether the pattern ends in the '$' that demands the end of the text. */
  predicate ToEnd(re: string) {
    if re == "" then false
    else if |re| >= 2 && re[1] == '*' then ToEnd(re[2..])
    else re == "$" || ToEnd(re[1..])
  }

  predicate InItem(item: Item, piece: string) {
    match item
    case One(c) => |piece| == 1 && Fits(c, piece[0])
    case Star(c) => forall i :: 0 <= i < |piece| ==> Fits(c, piece[i])
  }

  function Concat(pieces: seq<string>): string {
    if pieces == [] then "" else pieces[0] + Concat(pieces[1..])
  }

  ghost predicate Split(items: seq<Item>, s: string, pieces: seq<string>) {
    |pieces| == |items| && Concat(pieces) == s && forall i :: 0 <= i < |items| ==> InItem(items[i], pieces[i])
  }

  /** s is a concatenation of one piece for each item. */
  ghost predicate InLanguage(items: seq<Item>, s: string) {
    exists pieces :: Split(items, s, pieces)
  }

  /** A prefix of text is in the language of re; all of it when re ends in '$'. */
  ghost predicate HasPrefix(re: string, text: string) {
    exists j :: 0 <= j <= |text| && InLanguage(Items(re), text[..j]) && (ToEnd(re) ==> j == |text|)
  }

  /** What grep reports: a leading '^' ties the match to the start of the text, and
      otherwise any substring will do. */
  ghost predicate Matches(re: string, text: string) {
    if re != "" && re[0] == '^' then HasPrefix(re[1..], text)
    else exists i, j :: 0 <= i <= j <= |text| && InLanguage(Items(re), text[i..j]) && (ToEnd(re) ==> j == |text|)
  }

  ghost predicate StarPrefix(c: char, re: string, text: string) {
    exists k :: 0 <= k <= |text| && InItem(Star(c), text[..k]) && HasPrefix(re, text[k..])
  }

  // ------------------------------------------------------------- the language

  lemma EmptyLanguage(s: string)
    ensures InLanguage([], s) <==> s == ""
  {
    if s == "" {
      assert Split([], s, []);
    }
  }

  /** The first piece belongs to the first item, the others to the others. */
  lemma FirstPiece(item: Item, items: seq<Item>, s: string)
    ensures InLanguage([item] + items, s) <==>
              exists k :: 0 <= k <= |s| && InItem(item, s[..k]) && InLanguage(items, s[k..])
  {
    if InLanguage([item] + items, s) {
      var pieces :| Split([item] + items, s, pieces);
      var k := |pieces[0]|;
      assert s == pieces[0] + Concat(pieces[1..]);
      assert s[..k] == pieces[0] && s[k..] == Concat(pieces[1..]);
      assert InItem(([item] + items)[0], pieces[0]);
      assert forall i :: 0 <= i < |items| ==> ([item] + items)[i + 1] == items[i];
      assert Split(items, s[k..], pieces[1..]);
    }
    if exists k :: 0 <= k <= |s| && InItem(item, s[..k]) && InLanguage(items, s[k..]) {
      var k :| 0 <= k <= |s| && InItem(item, s[..k]) && InLanguage(items, s[k..]);
      var rest :| Split(items, s[k..], rest);
      var pieces := [s[..k]] + rest;
      assert pieces[1..] == rest && s[..k] + s[k..] == s;
      assert Split([item] + items, s, pieces);
    }
  }

  // ------------------------------------------- the branches of the matcher

  lemma PrefixEmpty(text: string)
    ensures HasPrefix("", text)
  {
    EmptyLanguage(text[..0]);
  }

  lemma PrefixEnd(text: string)
    ensures HasPrefix("$", text) <==> text == ""
  {
    EmptyLanguage(text);
    EmptyLanguage(text[..|text|]);
    assert text[..|text|] == text;
  }

  lemma PrefixOne(re: string, text: string)
    requires re != "" && re != "$" && !(|re| >= 2 && re[1] == '*')
    ensures HasPrefix(re, text) <==> text != "" && Fits(re[0], text[0]) && HasPrefix(re[1..], text[1..])
  {
    hide InLanguage;
    var items := Items(re[1..]);
    if HasPrefix(re, text) {
      var j :| 0 <= j <= |text| && InLanguage(Items(re), text[..j]) && (ToEnd(re) ==> j == |text|);
      FirstPiece(One(re[0]), items, text[..j]);
      var k :| 0 <= k <= j && InItem(One(re[0]), text[..j][..k]) && InLanguage(items, text[..j][k..]);
      assert text[..j][1..] == text[1..][..j - 1];
    }
    if text != "" && Fits(re[0], text[0]) && HasPrefix(re[1..], text[1..]) {
      var j :| 0 <= j <= |text| - 1 && InLanguage(items, text[1..][..j]) && (ToEnd(re[1..]) ==> j == |text| - 1);
      var s := text[..j + 1];
      assert s[1..] == text[1..][..j] && InItem(One(re[0]), s[..1]);
      FirstPiece(One(re[0]), items, s);
    }
  }

  lemma Cut(text: string, k: nat, j: nat)
    requires k <= j <= |text|
    ensures text[..j][..k] == text[..k] && text[..j][k..] == text[k..][..j - k]
  {
  }

  lemma PrefixStar(re: string, text: string)
    requires |re| >= 2 && re[1] == '*'
    ensures HasPrefix(re, text) <==> StarPrefix(re[0], re[2..], text)
  {
    hide InLanguage;
    var star, items := Star(re[0]), Items(re[2..]);
    if HasPrefix(re, text) {
      var j :| 0 <= j <= |text| && InLanguage(Items(re), text[..j]) && (ToEnd(re) ==> j == |text|);
      FirstPiece(star, items, text[..j]);
      var k :| 0 <= k <= j && InItem(star, text[..j][..k]) && InLanguage(items, text[..j][k..]);
      Cut(text, k, j);
      assert HasPrefix(re[2..], text[k..]);
    }
    if StarPrefix(re[0], re[2..], text) {
      var k :| 0 <= k <= |text| && InItem(star, text[..k]) && HasPrefix(re[2..], text[k..]);
      var j :| 0 <= j <= |text| - k && InLanguage(items, text[k..][..j]) && (ToEnd(re[2..]) ==> j == |text| - k);
      var s := text[..k + j];
      Cut(text, k, k + j);
      FirstPiece(star, items, s);
    }
  }

  /** Matching somewhere is having a prefix from some place on. */
  lemma MatchesSomewhere(re: string, text: string)
    requires re == "" || re[0] != '^'
    ensures Matches(re, text) <==> exists i :: 0 <= i <= |text| && HasPrefix(re, text[i..])
  {
    hide InLanguage;
    if Matches(re, text) {
      var i, j :| 0 <= i <= j <= |text| && InLanguage(Items(re), text[i..j]) && (ToEnd(re) ==> j == |text|);
      assert text[i..][..j - i] == text[i..j];
    }
    if exists i :: 0 <= i <= |text| && HasPrefix(re, text[i..]) {
      var i :| 0 <= i <= |text| && HasPrefix(re, text[i..]);
      var j :| 0 <= j <= |text| - i && InLanguage(Items(re), text[i..][..j]) && (ToEnd(re) ==> j == |text| - i);
      assert text[i..][..j] == text[i..i + j];
    }
  }

  // ------------------------------------------------------------- the matcher

  method Match(re: string, text: string) returns (found: bool)
    ensures found <==> Matches(re, text)
  {
    hide HasPrefix;
    if re != "" && re[0] == '^' {
      found := MatchHere(re[1..], text);
      return;
    }
    MatchesSomewhere(re, text);
    var i := 0;
    while true
      invariant 0 <= i <= |text| && forall j :: 0 <= j < i ==> !HasPrefix(re, text[j..])
      decreases |text| - i
    {
      var here := MatchHere(re, text[i..]);
      if here {
        return true;
      }
      if i == |text| {
        return false;
      }
      i := i + 1;
    }
  }

  method MatchHere(re: string, text: string) returns (found: bool)
    ensures found <==> HasPrefix(re, text)
    decreases |re|, 0
  {
    hide HasPrefix;
    if re == "" {
      PrefixEmpty(text);
      return true;
    }
    if |re| >= 2 && re[1] == '*' {
      PrefixStar(re, text);
      found := MatchStar(re[0], re[2..], text);
      return;
    }
    if re == "$" {
      PrefixEnd(text);
      return text == "";
    }
    PrefixOne(re, text);
    if text != "" && (re[0] == '.' || re[0] == text[0]) {
      found := MatchHere(re[1..], text[1..]);
      return;
    }
    return false;
  }

  method MatchStar(c: char, re: string, text: string) returns (found: bool)
    ensures found <==> StarPrefix(c, re, text)
    decreases |re|, 1
  {
    hide HasPrefix;
    var i := 0;
    while true
      invariant 0 <= i <= |text| && InItem(Star(c), text[..i])
      invariant forall k :: 0 <= k < i ==> !HasPrefix(re, text[k..])
      decreases |text| - i
    {
      var here := MatchHere(re, text[i..]);
      if here {
        return true;
      }
      if i == |text| || !(text[i] == c || c == '.') {
        forall k | i < k <= |text|
          ensures !InItem(Star(c), text[..k])
        {
          assert text[..k][i] == text[i];
        }
        return false;
      }
      assert text[..i + 1] == text[..i] + [text[i]];
      i := i + 1;
    }
  }
}
