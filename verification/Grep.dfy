/** The regular expression matcher of grep.c against what a pattern means.

    A pattern is a list of items, one character or a starred character, and perhaps a '$' at
    its end.  A text matches at a position when it can be cut there into pieces that fit the
    items one after the other. */
module Grep {
  /** `c` is '.' for any character. */
  datatype Item = One(c: char) | Star(c: char)

  function Items(re: string): seq<Item> {
    if re == "" || re == "$" then []
    else if |re| >= 2 && re[1] == '*' then [Star(re[0])] + Items(re[2..])
    else [One(re[0])] + Items(re[1..])
  }

  /** Does the pattern end in a '$' that is not starred? */
  predicate AtEnd(re: string) {
    if re == "" then false
    else if re == "$" then true
    else if |re| >= 2 && re[1] == '*' then AtEnd(re[2..])
    else AtEnd(re[1..])
  }

  predicate Fits(c: char, x: char) {
    c == '.' || x == c
  }

  predicate Piece(it: Item, w: string) {
    match it {
      case One(c) => |w| == 1 && Fits(c, w[0])
      case Star(c) => forall i :: 0 <= i < |w| ==> Fits(c, w[i])
    }
  }

  /** Piece `i` lies between two cuts. */
  predicate PieceAt(items: seq<Item>, text: string, cuts: seq<nat>, i: nat)
    requires i < |items| && |cuts| == |items| + 1
  {
    cuts[i] <= cuts[i + 1] <= |text| && Piece(items[i], text[cuts[i]..cuts[i + 1]])
  }

  /** The text from `b` on is cut into pieces for all items. */
  ghost predicate Cut(items: seq<Item>, text: string, b: nat, cuts: seq<nat>) {
    && |cuts| == |items| + 1 && cuts[0] == b && b <= |text|
    && forall i: nat {:trigger PieceAt(items, text, cuts, i)} :: i < |items| ==> PieceAt(items, text, cuts, i)
  }

  /** The pattern matches the text at `b`. */
  ghost predicate Here(re: string, text: string, b: nat) {
    exists cuts :: Cut(Items(re), text, b, cuts) && (AtEnd(re) ==> cuts[|cuts| - 1] == |text|)
  }

  /** The pattern, with a leading '^' or not, matches the text. */
  ghost predicate Matches(re: string, text: string) {
    if re != "" && re[0] == '^' then Here(re[1..], text, 0) else exists b: nat :: b <= |text| && Here(re, text, b)
  }

  // ----- One item at a time -----

  lemma CutFirst(it: Item, items: seq<Item>, text: string, b: nat, cuts: seq<nat>)
    requires Cut([it] + items, text, b, cuts)
    ensures b <= cuts[1] <= |text| && Piece(it, text[b..cuts[1]]) && Cut(items, text, cuts[1], cuts[1..])
  {
    var all := [it] + items;
    assert PieceAt(all, text, cuts, 0);
    forall i: nat | i < |items| ensures PieceAt(items, text, cuts[1..], i) {
      assert PieceAt(all, text, cuts, i + 1);
    }
  }

  lemma CutMore(it: Item, items: seq<Item>, text: string, b: nat, cuts: seq<nat>, k: nat)
    requires b <= k <= |text| && Piece(it, text[b..k]) && Cut(items, text, k, cuts)
    ensures Cut([it] + items, text, b, [b] + cuts)
  {
    forall i: nat | i <= |items| ensures PieceAt([it] + items, text, [b] + cuts, i) {
      assert i > 0 ==> PieceAt(items, text, cuts, i - 1);
    }
  }

  /** A pattern that starts with an item: match it, and then the rest. */
  lemma HereItem(re: string, it: Item, rest: string, text: string, b: nat)
    requires Items(re) == [it] + Items(rest) && AtEnd(re) == AtEnd(rest)
    ensures Here(re, text, b) <==> exists k: nat :: b <= k <= |text| && Piece(it, text[b..k]) && Here(rest, text, k)
  {
    if Here(re, text, b) {
      var cuts :| Cut(Items(re), text, b, cuts) && (AtEnd(re) ==> cuts[|cuts| - 1] == |text|);
      CutFirst(it, Items(rest), text, b, cuts);
      assert Here(rest, text, cuts[1]);
    }
    if k: nat :| b <= k <= |text| && Piece(it, text[b..k]) && Here(rest, text, k) {
      var cuts :| Cut(Items(rest), text, k, cuts) && (AtEnd(rest) ==> cuts[|cuts| - 1] == |text|);
      CutMore(it, Items(rest), text, b, cuts, k);
      assert Here(re, text, b);
    }
  }

  lemma HereNothing(re: string, text: string, b: nat)
    requires b <= |text| && (re == "" || re == "$")
    ensures Here(re, text, b) <==> re == "" || b == |text|
  {
    assert Cut([], text, b, [b]);
  }

  lemma HereOne(re: string, text: string, b: nat)
    requires b <= |text| && re != "" && re != "$" && !(|re| >= 2 && re[1] == '*')
    ensures Here(re, text, b) <==> b < |text| && Fits(re[0], text[b]) && Here(re[1..], text, b + 1)
  {
    HereItem(re, One(re[0]), re[1..], text, b);
    if b < |text| {
      assert text[b..b + 1][0] == text[b];
    }
  }

  // ----- The code -----

  method MatchHere(re: string, text: string, b: nat) returns (r: bool)
    requires b <= |text|
    ensures r == Here(re, text, b)
    decreases |re|, 0
  {
    if re == "" {
      HereNothing(re, text, b);
      return true;
    }
    if |re| >= 2 && re[1] == '*' {
      HereItem(re, Star(re[0]), re[2..], text, b);
      r := MatchStar(re[0], re[2..], text, b);
      return;
    }
    if re[0] == '$' && |re| == 1 {
      HereNothing(re, text, b);
      return b == |text|;
    }
    HereOne(re, text, b);
    if b < |text| && (re[0] == '.' || re[0] == text[b]) {
      r := MatchHere(re[1..], text, b + 1);
      return;
    }
    return false;
  }

  method MatchStar(c: char, re: string, text: string, b: nat) returns (r: bool)
    requires b <= |text|
    ensures r <==> exists k: nat :: b <= k <= |text| && Piece(Star(c), text[b..k]) && Here(re, text, k)
    decreases |re|, 1
  {
    var p := b;
    while true
      invariant b <= p <= |text| && Piece(Star(c), text[b..p])
      invariant forall k: nat :: b <= k < p ==> !Here(re, text, k)
      decreases |text| - p
    {
      var m := MatchHere(re, text, p);
      if m {
        return true;
      }
      if p == |text| || !(text[p] == c || c == '.') {
        forall k: nat | p < k <= |text| ensures !Piece(Star(c), text[b..k]) {
          assert text[b..k][p - b] == text[p];
        }
        return false;
      }
      assert text[b..p + 1] == text[b..p] + [text[p]];
      p := p + 1;
    }
  }

  method Match(re: string, text: string) returns (r: bool)
    ensures r == Matches(re, text)
  {
    if re != "" && re[0] == '^' {
      r := MatchHere(re[1..], text, 0);
      return;
    }
    var b := 0;
    while true
      invariant 0 <= b <= |text| && forall a: nat :: a < b ==> !Here(re, text, a)
      decreases |text| - b
    {
      r := MatchHere(re, text, b);
      if r || b == |text| {
        return;
      }
      b := b + 1;
    }
  }
}
