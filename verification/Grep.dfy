/** grep's matcher, against a declarative meaning of its patterns: the pattern is a
    list of items, and a match is a way to cut the text into one word per item. */
module Grep {

  /** One unit of a pattern: a character or '.', either of them starred, or the final '$'. */
  datatype Item = One(c: char) | Star(c: char) | End

  /** '*' after any character stars it, '$' is special only as the last character. */
  function Parse(re: string): seq<Item> {
    if re == [] then []
    else if |re| >= 2 && re[1] == '*' then [Star(re[0])] + Parse(re[2..])
    else if re == "$" then [End]
    else [One(re[0])] + Parse(re[1..])
  }

  predicate Fits(c: char, x: char) {
    c == '.' || c == x
  }

  /** The words an item stands for. */
  predicate InItem(it: Item, w: string) {
    match it
    case One(c) => |w| == 1 && Fits(c, w[0])
    case Star(c) => forall k :: 0 <= k < |w| ==> Fits(c, w[k])
    case End => w == []
  }

  function Concat(words: seq<string>): string {
    if words == [] then [] else words[0] + Concat(words[1..])
  }

  predicate HasEnd(items: seq<Item>) {
    items != [] && items[|items| - 1].End?
  }

  /** `words` then `rest` is a cut of t matching the items from t's first character on. */
  predicate Cut(items: seq<Item>, words: seq<string>, rest: string, t: string) {
    && |words| == |items| && t == Concat(words) + rest
    && (forall i :: 0 <= i < |items| ==> InItem(items[i], words[i]))
    && (HasEnd(items) ==> rest == [])
  }

  ghost predicate Here(items: seq<Item>, t: string) {
    exists words: seq<string>, rest: string :: Cut(items, words, rest, t)
  }

  /** A pattern matches a text: '^' pins the match to the start, otherwise it may
      start anywhere. */
  ghost predicate Matches(re: string, text: string) {
    if re != [] && re[0] == '^' then Here(Parse(re[1..]), text)
    else exists i :: 0 <= i <= |text| && Here(Parse(re), text[i..])
  }

  // --------------------------------------------- how a cut begins

  lemma HereNil(t: string)
    ensures Here([], t)
  {
    assert Concat([]) + t == t;
    assert Cut([], [], t, t);
  }

  lemma HereEnd(t: string)
    ensures Here([End], t) <==> t == []
  {
    if t == [] {
      assert Concat([[]]) + [] == t;
      assert Cut([End], [[]], [], t);
    }
    if Here([End], t) {
      var words, rest :| Cut([End], words, rest, t);
      assert words == [words[0]] && InItem(End, words[0]);
      assert Concat(words) == words[0] + Concat([]);
    }
  }

  /** Prefixing a word for the first item to a cut of what follows. */
  lemma CutCons(it: Item, items: seq<Item>, w: string, t: string)
    requires InItem(it, w) && (it.End? ==> items != []) && Here(items, t)
    ensures Here([it] + items, w + t)
  {
    var words, rest :| Cut(items, words, rest, t);
    var ws := [w] + words;
    assert ws[1..] == words;
    assert w + t == Concat(ws) + rest;
    assert Cut([it] + items, ws, rest, w + t);
  }

  /** Every cut gives its first item a prefix of the text. */
  lemma CutUncons(it: Item, items: seq<Item>, t: string) returns (k: nat)
    requires Here([it] + items, t) && (it.End? ==> items != [])
    ensures k <= |t| && InItem(it, t[..k]) && Here(items, t[k..])
  {
    var words, rest :| Cut([it] + items, words, rest, t);
    k := |words[0]|;
    var tail := words[1..];
    assert t == words[0] + (Concat(tail) + rest);
    assert t[..k] == words[0] && t[k..] == Concat(tail) + rest;
    assert InItem(([it] + items)[0], words[0]);
    assert forall i :: 0 <= i < |items| ==> ([it] + items)[i + 1] == items[i];
    assert Cut(items, tail, rest, t[k..]);
  }

  lemma HereOne(c: char, items: seq<Item>, t: string)
    ensures Here([One(c)] + items, t) <==> t != [] && Fits(c, t[0]) && Here(items, t[1..])
  {
    if Here([One(c)] + items, t) {
      var k := CutUncons(One(c), items, t);
    }
    if t != [] && Fits(c, t[0]) && Here(items, t[1..]) {
      CutCons(One(c), items, t[..1], t[1..]);
      assert t[..1] + t[1..] == t;
    }
  }

  /** A starred item takes some prefix of fitting characters, of any length. */
  lemma HereStar(c: char, items: seq<Item>, t: string)
    ensures Here([Star(c)] + items, t) <==>
      exists k :: 0 <= k <= |t| && InItem(Star(c), t[..k]) && Here(items, t[k..])
  {
    if Here([Star(c)] + items, t) {
      var k := CutUncons(Star(c), items, t);
    }
    if exists k :: 0 <= k <= |t| && InItem(Star(c), t[..k]) && Here(items, t[k..]) {
      var k :| 0 <= k <= |t| && InItem(Star(c), t[..k]) && Here(items, t[k..]);
      CutCons(Star(c), items, t[..k], t[k..]);
      assert t[..k] + t[k..] == t;
    }
  }

  // --------------------------------------------------------- the program

  /** matchhere: sound and complete for patterns at the start of the text. */
  method MatchHere(re: string, text: string) returns (r: bool)
    ensures r <==> Here(Parse(re), text)
    decreases |re|, 0
  {
    if |re| == 0 {
      HereNil(text);
      return true;
    }
    if |re| >= 2 && re[1] == '*' {
      r := MatchStar(re[0], re[2..], text);
      return;
    }
    if re[0] == '$' && |re| == 1 {
      HereEnd(text);
      return |text| == 0;
    }
    HereOne(re[0], Parse(re[1..]), text);
    if |text| != 0 && (re[0] == '.' || re[0] == text[0]) {
      r := MatchHere(re[1..], text[1..]);
      return;
    }
    return false;
  }

  /** matchstar: tries every length the starred character allows. */
  method MatchStar(c: char, re: string, text: string) returns (r: bool)
    ensures r <==> Here([Star(c)] + Parse(re), text)
    decreases |re|, 1
  {
    HereStar(c, Parse(re), text);
    var i := 0;
    while true
      invariant 0 <= i <= |text| && InItem(Star(c), text[..i])
      invariant forall j :: 0 <= j < i ==> !Here(Parse(re), text[j..])
      decreases |text| - i
    {
      r := MatchHere(re, text[i..]);
      if r {
        return true;
      }
      if i < |text| && (text[i] == c || c == '.') {
        assert text[..i + 1] == text[..i] + [text[i]];
        i := i + 1;
      } else {
        forall k | 0 <= k <= |text| && InItem(Star(c), text[..k])
          ensures !Here(Parse(re), text[k..])
        {
          assert k > i ==> Fits(c, text[..k][i]);
        }
        return false;
      }
    }
  }

  /** match returns 1 exactly when the pattern matches somewhere in the text. */
  method Match(re: string, text: string) returns (r: bool)
    ensures r <==> Matches(re, text)
  {
    if |re| > 0 && re[0] == '^' {
      r := MatchHere(re[1..], text);
      return;
    }
    var i := 0;
    while true
      invariant 0 <= i <= |text|
      invariant forall j :: 0 <= j < i ==> !Here(Parse(re), text[j..])
      decreases |text| - i
    {
      r := MatchHere(re, text[i..]);
      if r {
        return true;
      }
      if i == |text| {
        return false;
      }
      i := i + 1;
    }
  }
}
