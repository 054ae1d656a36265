/**
 The regular expression matcher of grep: literals, `.`, `c*`, a leading `^`
 and a final `$`, matched by backtracking. The partner of the code is a
 semantics by cutting the text into pieces, one for each item of the pattern.
 Strings are C strings: they contain no NUL.
 */
module Grep {

  // ---- Semantics ----

  datatype Item = One(c: char) | Star(c: char) | End

  /** How a pattern is read: a star binds the character before it, whatever it
      is, and `$` is special only as the last character. */
  function Items(re: string): (items: seq<Item>)
  {
    if re == "" then []
    else if |re| >= 2 && re[1] == '*' then [Star(re[0])] + Items(re[2..])
    else if re == "$" then [End]
    else [One(re[0])] + Items(re[1..])
  }

  /** How items are written. */
  function Spelled(items: seq<Item>): (re: string)
  {
    if items == [] then ""
    else
      (match items[0] case One(c) => [c] case Star(c) => [c, '*'] case End => "$") + Spelled(items[1..])
  }

  /** Items as they stand in a pattern: a character that no star follows, and is not
      a final `$`; a star and its character; or the final `$`. */
  ghost predicate InPlace(items: seq<Item>)
  {
    items != [] ==>
      && (items[0].One? ==>
            var rest := Spelled(items[1..]);
            (rest != "" ==> rest[0] != '*') && (items[0].c == '$' ==> rest != ""))
      && (items[0].End? ==> items[1..] == [])
      && InPlace(items[1..])
  }

  /** Every pattern is read in exactly one way. */
  lemma {:induction false} ItemsIff(re: string, items: seq<Item>)
    ensures Spelled(items) == re && InPlace(items) <==> items == Items(re)
    decreases |re| + |items|
  {
    ItemsSpell(re);
    if Spelled(items) == re && InPlace(items) {
      SpelledOnce(re, items);
    }
  }

  lemma {:induction false} ItemsSpell(re: string)
    ensures Spelled(Items(re)) == re && InPlace(Items(re))
    decreases |re|
  {
    var items := Items(re);
    if re != "" {
      var k := if |re| >= 2 && re[1] == '*' then 2 else 1;
      ItemsSpell(re[k..]);
      assert items[1..] == Items(re[k..]);
      assert re == re[..k] + re[k..];
      if k == 2 {
        assert re[..2] == [re[0], '*'];
      } else {
        assert re[..1] == [re[0]];
      }
    }
  }

  lemma {:induction false} SpelledOnce(re: string, items: seq<Item>)
    requires Spelled(items) == re && InPlace(items)
    ensures items == Items(re)
    decreases |items|
  {
    if items != [] {
      var rest := Spelled(items[1..]);
      SpelledOnce(rest, items[1..]);
      match items[0]
      case One(c) => assert re == [c] + rest && re[1..] == rest;
      case Star(c) => assert re == [c, '*'] + rest && re[2..] == rest;
      case End => assert re == "$";
      assert items == [items[0]] + items[1..];
    }
  }

  predicate Hits(c: char, x: char)
  {
    c == '.' || c == x
  }

  /** The item describes the piece of the text from `lo` to `hi`. */
  ghost predicate Describes(item: Item, text: string, lo: nat, hi: nat)
    requires lo <= hi <= |text|
  {
    match item
    case One(c) => hi == lo + 1 && Hits(c, text[lo])
    case Star(c) => forall k :: lo <= k < hi ==> Hits(c, text[k])
    case End => lo == hi == |text|
  }

  /** The piece between cuts `i` and `i + 1` is what item `i` describes. */
  ghost predicate Piece(items: seq<Item>, text: string, cuts: seq<nat>, i: nat)
    requires i < |items| && |cuts| == |items| + 1
  {
    cuts[i] <= cuts[i + 1] <= |text| && Describes(items[i], text, cuts[i], cuts[i + 1])
  }

  /** The cuts divide a beginning of the text into pieces that the items
      describe, in order. */
  ghost predicate Layout(items: seq<Item>, text: string, cuts: seq<nat>)
  {
    && |cuts| == |items| + 1 && cuts[0] == 0
    && forall i :: 0 <= i < |items| ==> Piece(items, text, cuts, i)
  }

  /** The pattern describes a beginning of the text. */
  ghost predicate Begins(items: seq<Item>, text: string)
  {
    exists cuts :: Layout(items, text, cuts)
  }

  /** What grep promises about a pattern and a line. */
  ghost predicate Matches(re: string, text: string)
  {
    if re != "" && re[0] == '^' then Begins(Items(re[1..]), text)
    else exists k :: 0 <= k <= |text| && Begins(Items(re), text[k..])
  }

  // ---- The semantics, one item at a time ----

  function Shift(cuts: seq<nat>, k: nat): (r: seq<nat>)
    ensures |r| == |cuts| && forall i :: 0 <= i < |cuts| ==> r[i] == cuts[i] + k
  {
    seq(|cuts|, i requires 0 <= i < |cuts| => cuts[i] + k)
  }

  lemma Prepend(items: seq<Item>, text: string, k: nat, cuts: seq<nat>)
    requires |items| > 0 && k <= |text| && Describes(items[0], text, 0, k) && Layout(items[1..], text[k..], cuts)
    ensures Layout(items, text, [0] + Shift(cuts, k))
  {
    var whole := [0] + Shift(cuts, k);
    forall i | 0 <= i < |items|
      ensures Piece(items, text, whole, i)
    {
      if i > 0 {
        assert Piece(items[1..], text[k..], cuts, i - 1);
        Moved(items[i], text, k, cuts[i - 1], cuts[i]);
        assert items[1..][i - 1] == items[i];
      }
    }
  }

  lemma Moved(item: Item, text: string, k: nat, lo: nat, hi: nat)
    requires k <= |text| && lo <= hi <= |text| - k
    ensures Describes(item, text[k..], lo, hi) <==> Describes(item, text, lo + k, hi + k)
  {
    if item.Star? {
      assert forall j :: lo <= j < hi ==> text[k..][j] == text[j + k];
      assert forall j :: lo + k <= j < hi + k ==> text[j] == text[k..][j - k];
    }
  }

  lemma Chop(items: seq<Item>, text: string, cuts: seq<nat>) returns (rest: seq<nat>)
    requires |items| > 0 && Layout(items, text, cuts)
    ensures cuts[1] <= |text| && Describes(items[0], text, 0, cuts[1])
    ensures Layout(items[1..], text[cuts[1]..], rest)
  {
    var k := cuts[1];
    rest := seq(|cuts| - 1, i requires 0 <= i < |cuts| - 1 => if cuts[i + 1] >= k then cuts[i + 1] - k else 0);
    CutsRise(items, text, cuts);
    assert Piece(items, text, cuts, 0);
    forall i | 0 <= i < |items| - 1
      ensures Piece(items[1..], text[k..], rest, i)
    {
      assert Piece(items, text, cuts, i + 1);
      Moved(items[i + 1], text, k, rest[i], rest[i + 1]);
    }
  }

  lemma CutsRise(items: seq<Item>, text: string, cuts: seq<nat>)
    requires |items| > 0 && Layout(items, text, cuts)
    ensures forall i :: 1 <= i < |cuts| ==> cuts[1] <= cuts[i]
  {
    forall i | 1 <= i < |cuts|
      ensures cuts[1] <= cuts[i]
    {
      CutRises(items, text, cuts, i);
    }
  }

  lemma {:induction false} CutRises(items: seq<Item>, text: string, cuts: seq<nat>, i: nat)
    requires Layout(items, text, cuts) && 1 <= i < |cuts|
    ensures cuts[1] <= cuts[i]
  {
    if i > 1 {
      CutRises(items, text, cuts, i - 1);
      assert Piece(items, text, cuts, i - 1);
    }
  }

  /** The first item takes a piece off the text and the others do the rest. */
  lemma BeginsFirst(items: seq<Item>, text: string)
    requires |items| > 0
    ensures Begins(items, text) <==>
            exists k :: 0 <= k <= |text| && Describes(items[0], text, 0, k) && Begins(items[1..], text[k..])
  {
    if Begins(items, text) {
      var cuts :| Layout(items, text, cuts);
      var rest := Chop(items, text, cuts);
      assert Begins(items[1..], text[cuts[1]..]);
    }
    if k :| 0 <= k <= |text| && Describes(items[0], text, 0, k) && Begins(items[1..], text[k..]) {
      var cuts :| Layout(items[1..], text[k..], cuts);
      Prepend(items, text, k, cuts);
    }
  }

  lemma BeginsEmpty(text: string)
    ensures Begins([], text)
  {
    assert Layout([], text, [0]);
  }

  lemma BeginsOne(c: char, items: seq<Item>, text: string)
    ensures Begins([One(c)] + items, text) <==> text != "" && Hits(c, text[0]) && Begins(items, text[1..])
  {
    BeginsFirst([One(c)] + items, text);
    assert ([One(c)] + items)[1..] == items;
  }

  lemma BeginsEnd(text: string)
    ensures Begins([End], text) <==> text == ""
  {
    BeginsFirst([End], text);
    assert [End][1..] == [] && text[0..] == text;
    BeginsEmpty(text);
  }

  /** A star takes any number of characters that it hits. */
  ghost predicate StarBegins(c: char, items: seq<Item>, text: string)
  {
    exists k :: 0 <= k <= |text| && Begins(items, text[k..]) && forall j :: 0 <= j < k ==> Hits(c, text[j])
  }

  lemma BeginsStar(c: char, items: seq<Item>, text: string)
    ensures Begins([Star(c)] + items, text) <==> StarBegins(c, items, text)
  {
    BeginsFirst([Star(c)] + items, text);
    assert ([Star(c)] + items)[1..] == items;
    if StarBegins(c, items, text) {
      var k :| 0 <= k <= |text| && Begins(items, text[k..]) && forall j :: 0 <= j < k ==> Hits(c, text[j]);
      assert Describes(([Star(c)] + items)[0], text, 0, k);
    }
  }

  // ---- The matcher ----

  predicate CString(s: string)
  {
    forall i :: 0 <= i < |s| ==> s[i] != '\0'
  }

  /** The pattern is found in the line exactly when the semantics says so. */
  method Match(re: string, text: string) returns (found: bool)
    requires CString(re) && CString(text)
    ensures found <==> Matches(re, text)
  {
    if re != "" && re[0] == '^' {
      found := MatchHere(re[1..], text);
      return;
    }
    var i := 0;
    while true
      invariant 0 <= i <= |text|
      invariant forall k :: 0 <= k < i ==> !Begins(Items(re), text[k..])
      decreases |text| - i
    {
      var here := MatchHere(re, text[i..]);
      if here {
        return true;
      }
      if i == |text| {
        break;
      }
      i := i + 1;
    }
    return false;
  }

  /** Does the pattern describe a beginning of the text? */
  method MatchHere(re: string, text: string) returns (found: bool)
    requires CString(re) && CString(text)
    ensures found <==> Begins(Items(re), text)
    decreases |re|, |text|, 1
  {
    if re == "" {
      BeginsEmpty(text);
      return true;
    }
    if |re| >= 2 && re[1] == '*' {
      BeginsStar(re[0], Items(re[2..]), text);
      found := MatchStar(re[0], re[2..], text);
      return;
    }
    if re[0] == '$' && |re| == 1 {
      BeginsEnd(text);
      return text == "";
    }
    BeginsOne(re[0], Items(re[1..]), text);
    if text != "" && (re[0] == '.' || re[0] == text[0]) {
      found := MatchHere(re[1..], text[1..]);
      return;
    }
    return false;
  }

  /** Does `c*` followed by the pattern describe a beginning of the text? */
  method MatchStar(c: char, re: string, text: string) returns (found: bool)
    requires CString(re) && CString(text)
    ensures found <==> StarBegins(c, Items(re), text)
    decreases |re| + 1, |text|, 0
  {
    var i := 0;
    while true
      invariant 0 <= i <= |text|
      invariant forall j :: 0 <= j < i ==> Hits(c, text[j])
      invariant forall k :: 0 <= k < i ==> !Begins(Items(re), text[k..])
      decreases |text| - i
    {
      var here := MatchHere(re, text[i..]);
      if here {
        return true;
      }
      if !(i < |text| && (text[i] == c || c == '.')) {
        break;
      }
      i := i + 1;
    }
    return false;
  }
}
