/** The regular-expression matcher of grep.c against the language its patterns
    denote. A C string is its characters without the terminating NUL. */
module Grep {

  /** What a pattern is made of, in order. End ('$' as the last character) may only be last. */
  datatype Item = Lit(c: char) | Any | Star(c: char) | End

  function Single(c: char): Item {
    if c == '.' then Any else Lit(c)
  }

  function Items(re: string): seq<Item> {
    if re == [] then []
    else if |re| >= 2 && re[1] == '*' then [Star(re[0])] + Items(re[2..])
    else if re == "$" then [End]
    else [Single(re[0])] + Items(re[1..])
  }

  predicate Fits(c: char, x: char) {
    c == '.' || c == x
  }

  predicate AllFit(c: char, s: string) {
    forall i | 0 <= i < |s| :: Fits(c, s[i])
  }

  /** s is in the language of items; atEnd says whether s reaches the end of the text. */
  predicate InLanguage(items: seq<Item>, s: string, atEnd: bool) {
    if items == [] then s == []
    else match items[0]
      case Lit(c) => s != [] && s[0] == c && InLanguage(items[1..], s[1..], atEnd)
      case Any => s != [] && InLanguage(items[1..], s[1..], atEnd)
      case Star(c) => exists j | 0 <= j <= |s| :: AllFit(c, s[..j]) && InLanguage(items[1..], s[j..], atEnd)
      case End => s == [] && atEnd && items == [End]
  }

  /** Some prefix of text is in the language of re. */
  predicate HasPrefix(re: string, text: string) {
    exists k | 0 <= k <= |text| :: InLanguage(Items(re), text[..k], k == |text|)
  }

  /** text matches c* followed by re at its beginning. */
  predicate HasStarPrefix(c: char, re: string, text: string) {
    exists j | 0 <= j <= |text| :: AllFit(c, text[..j]) && HasPrefix(re, text[j..])
  }

  /** The match grep promises: anchored by '^', otherwise anywhere in the text. */
  predicate Matches(re: string, text: string) {
    if re != [] && re[0] == '^' then HasPrefix(re[1..], text)
    else exists i | 0 <= i <= |text| :: HasPrefix(re, text[i..])
  }

  lemma EmptyMatches(text: string)
    ensures HasPrefix([], text)
  {
    assert text[..0] == [];
  }

  lemma EndMatches(text: string)
    ensures HasPrefix("$", text) <==> text == []
  {
    assert Items("$") == [End];
    if text == [] {
      assert InLanguage([End], text[..0], true);
    }
  }

  lemma SingleMatches(re: string, text: string)
    requires re != [] && !(|re| >= 2 && re[1] == '*') && re != "$"
    ensures HasPrefix(re, text) <==> text != [] && Fits(re[0], text[0]) && HasPrefix(re[1..], text[1..])
  {
    assert Items(re)[1..] == Items(re[1..]);
    if HasPrefix(re, text) {
      var k :| 0 <= k <= |text| && InLanguage(Items(re), text[..k], k == |text|);
      assert text[..k][1..] == text[1..][..k - 1];
    }
    if text != [] && Fits(re[0], text[0]) && HasPrefix(re[1..], text[1..]) {
      var k :| 0 <= k <= |text[1..]| && InLanguage(Items(re[1..]), text[1..][..k], k == |text[1..]|);
      assert text[..k + 1][1..] == text[1..][..k];
      assert InLanguage(Items(re), text[..k + 1], k + 1 == |text|);
    }
  }

  lemma StarMatches(re: string, text: string)
    requires |re| >= 2 && re[1] == '*'
    ensures HasPrefix(re, text) <==> HasStarPrefix(re[0], re[2..], text)
  {
    var c, rest := re[0], re[2..];
    assert Items(re)[1..] == Items(rest);
    if HasPrefix(re, text) {
      var k :| 0 <= k <= |text| && InLanguage(Items(re), text[..k], k == |text|);
      var j :| 0 <= j <= k && AllFit(c, text[..k][..j]) && InLanguage(Items(rest), text[..k][j..], k == |text|);
      assert text[..k][..j] == text[..j] && text[..k][j..] == text[j..][..k - j];
      assert HasPrefix(rest, text[j..]);
    }
    if HasStarPrefix(c, rest, text) {
      var j :| 0 <= j <= |text| && AllFit(c, text[..j]) && HasPrefix(rest, text[j..]);
      var k :| 0 <= k <= |text[j..]| && InLanguage(Items(rest), text[j..][..k], k == |text[j..]|);
      var s := text[..j + k];
      assert s[..j] == text[..j] && s[j..] == text[j..][..k];
      assert InLanguage(Items(re), s, j + k == |text|);
    }
  }

  /** match: search for re anywhere in text. */
  method Match(re: string, text: string) returns (r: bool)
    ensures r <==> Matches(re, text)
  {
    if re != [] && re[0] == '^' {
      r := MatchHere(re[1..], text);
      return;
    }
    var i := 0;
    while true
      invariant 0 <= i <= |text|
      invariant forall j | 0 <= j < i :: !HasPrefix(re, text[j..])
      decreases |text| - i
    {
      r := MatchHere(re, text[i..]);
      if r {
        return;
      }
      if i == |text| {
        return false;
      }
      i := i + 1;
    }
  }

  /** matchhere: search for re at the beginning of text. */
  method MatchHere(re: string, text: string) returns (r: bool)
    ensures r <==> HasPrefix(re, text)
    decreases |re|, |text|, 0
  {
    if re == [] {
      EmptyMatches(text);
      return true;
    }
    if |re| >= 2 && re[1] == '*' {
      StarMatches(re, text);
      r := MatchStar(re[0], re[2..], text);
      return;
    }
    if re == "$" {
      EndMatches(text);
      return text == [];
    }
    SingleMatches(re, text);
    if text != [] && (re[0] == '.' || re[0] == text[0]) {
      r := MatchHere(re[1..], text[1..]);
      return;
    }
    return false;
  }

  /** A run of matching characters does not go past one that does not match. */
  lemma FitsNoFurther(c: char, text: string, i: nat, j: nat)
    requires i < j <= |text| && !Fits(c, text[i])
    ensures !AllFit(c, text[..j])
  {
    assert text[..j][i] == text[i];
  }

  /** matchstar: search for c*re at the beginning of text. */
  method MatchStar(c: char, re: string, text: string) returns (r: bool)
    ensures r <==> HasStarPrefix(c, re, text)
    decreases |re|, |text|, 1
  {
    var i := 0;
    while true
      invariant 0 <= i <= |text| && AllFit(c, text[..i])
      invariant forall j | 0 <= j < i :: !HasPrefix(re, text[j..])
      decreases |text| - i
    {
      r := MatchHere(re, text[i..]);
      if r {
        return;
      }
      if !(i < |text| && (text[i] == c || c == '.')) {
        forall j | i < j <= |text| ensures !AllFit(c, text[..j]) {
          FitsNoFurther(c, text, i, j);
        }
        return false;
      }
      assert text[..i + 1] == text[..i] + [text[i]];
      i := i + 1;
    }
  }
}
