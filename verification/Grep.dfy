/**
 The backtracking matcher of xv6/grep.c against the language its patterns denote.
 Patterns and texts are strings without NUL; the C code reads a NUL at their end.
 */
module Grep {

  /** One character, or any number of them; '.' stands for every character. */
  datatype Item = One(c: char) | Many(c: char)

  /** A pattern after its '^': items in order, and whether a final '$' ends it. */
  datatype Pattern = Pattern(items: seq<Item>, toEnd: bool)

  function Parse(re: string): Pattern {
    if re == [] then Pattern([], false)
    else if |re| >= 2 && re[1] == '*' then
      var p := Parse(re[2..]);
      Pattern([Many(re[0])] + p.items, p.toEnd)
    else if re == "$" then Pattern([], true)
    else
      var p := Parse(re[1..]);
      Pattern([One(re[0])] + p.items, p.toEnd)
  }

  predicate Accepts(c: char, d: char) {
    c == '.' || c == d
  }

  /** The strings of one item. */
  predicate IsPiece(i: Item, s: string) {
    (i.One? ==> |s| == 1) && forall k :: 0 <= k < |s| ==> Accepts(i.c, s[k])
  }

  predicate ArePieces(items: seq<Item>, pieces: seq<string>) {
    |items| == |pieces| && forall k :: 0 <= k < |items| ==> IsPiece(items[k], pieces[k])
  }

  function Join(pieces: seq<string>): string {
    if pieces == [] then "" else pieces[0] + Join(pieces[1..])
  }

  /** The language of the items: strings cut into one piece per item. */
  ghost predicate InLanguage(items: seq<Item>, s: string) {
    exists pieces :: ArePieces(items, pieces) && Join(pieces) == s
  }

  /** A prefix of the text is in the language; with '$' it is the whole text. */
  ghost predicate PrefixOk(p: Pattern, text: string, n: nat) {
    n <= |text| && (p.toEnd ==> n == |text|) && InLanguage(p.items, text[..n])
  }

  ghost predicate Here(p: Pattern, text: string) {
    exists n: nat :: PrefixOk(p, text, n)
  }

  /** What the whole pattern asks of a line. */
  ghost predicate Matches(re: string, text: string) {
    if re != [] && re[0] == '^' then Here(Parse(re[1..]), text)
    else exists start :: 0 <= start <= |text| && Here(Parse(re), text[start..])
  }

  // ---- the language, one item at a time ----

  lemma SplitFirst(i: Item, rest: seq<Item>, s: string)
    ensures InLanguage([i] + rest, s) <==>
            exists k :: 0 <= k <= |s| && IsPiece(i, s[..k]) && InLanguage(rest, s[k..])
  {
    if InLanguage([i] + rest, s) {
      var pieces :| ArePieces([i] + rest, pieces) && Join(pieces) == s;
      var k := |pieces[0]|;
      assert IsPiece(([i] + rest)[0], pieces[0]);
      assert ArePieces(rest, pieces[1..]) by {
        forall j | 0 <= j < |rest|
          ensures IsPiece(rest[j], pieces[1..][j])
        {
          assert IsPiece(([i] + rest)[j + 1], pieces[j + 1]);
        }
      }
      assert s[..k] == pieces[0] && s[k..] == Join(pieces[1..]);
    }
    forall k | 0 <= k <= |s| && IsPiece(i, s[..k]) && InLanguage(rest, s[k..])
      ensures InLanguage([i] + rest, s)
    {
      var tail :| ArePieces(rest, tail) && Join(tail) == s[k..];
      var pieces := [s[..k]] + tail;
      assert pieces[1..] == tail && Join(pieces) == s[..k] + s[k..] == s;
      assert ArePieces([i] + rest, pieces);
    }
  }

  lemma NoItems(s: string)
    ensures InLanguage([], s) <==> s == ""
  {
    if s == "" {
      assert ArePieces([], []) && Join([]) == s;
    }
  }

  /** A pattern that starts with an item matches here when the item takes some first characters. */
  lemma HereFirst(i: Item, p: Pattern, text: string)
    ensures Here(Pattern([i] + p.items, p.toEnd), text) <==>
            exists k :: 0 <= k <= |text| && IsPiece(i, text[..k]) && Here(p, text[k..])
  {
    hide InLanguage, IsPiece;
    var q := Pattern([i] + p.items, p.toEnd);
    if Here(q, text) {
      var n: nat :| PrefixOk(q, text, n);
      SplitFirst(i, p.items, text[..n]);
      var k :| 0 <= k <= n && IsPiece(i, text[..n][..k]) && InLanguage(p.items, text[..n][k..]);
      assert text[..n][..k] == text[..k] && text[..n][k..] == text[k..][..n - k];
      assert PrefixOk(p, text[k..], n - k);
    }
    forall k | 0 <= k <= |text| && IsPiece(i, text[..k]) && Here(p, text[k..])
      ensures Here(q, text)
    {
      var m: nat :| PrefixOk(p, text[k..], m);
      var n := k + m;
      SplitFirst(i, p.items, text[..n]);
      assert text[..n][..k] == text[..k] && text[..n][k..] == text[k..][..m];
      assert PrefixOk(q, text, n);
    }
  }

  lemma HereOne(c: char, p: Pattern, text: string)
    ensures Here(Pattern([One(c)] + p.items, p.toEnd), text) <==>
            text != [] && Accepts(c, text[0]) && Here(p, text[1..])
  {
    HereFirst(One(c), p, text);
    if text != [] && Accepts(c, text[0]) && Here(p, text[1..]) {
      assert IsPiece(One(c), text[..1]);
    }
    forall k | 0 <= k <= |text| && IsPiece(One(c), text[..k])
      ensures k == 1 && Accepts(c, text[0])
    {
      assert Accepts(c, text[..k][0]);
    }
  }

  /** The loop of matchstar tries every number of accepted characters. */
  ghost predicate StarHere(c: char, p: Pattern, text: string, from: nat)
    requires from <= |text|
  {
    exists k :: from <= k <= |text| && (forall j :: from <= j < k ==> Accepts(c, text[j])) && Here(p, text[k..])
  }

  lemma HereMany(c: char, p: Pattern, text: string)
    ensures Here(Pattern([Many(c)] + p.items, p.toEnd), text) <==> StarHere(c, p, text, 0)
  {
    HereFirst(Many(c), p, text);
    forall k | 0 <= k <= |text|
      ensures IsPiece(Many(c), text[..k]) <==> forall j :: 0 <= j < k ==> Accepts(c, text[j])
    {
      forall j | 0 <= j < k
        ensures text[..k][j] == text[j]
      {
      }
      if IsPiece(Many(c), text[..k]) {
        forall j | 0 <= j < k
          ensures Accepts(c, text[j])
        {
          assert Accepts(c, text[..k][j]);
        }
      }
    }
  }

  lemma StarStep(c: char, p: Pattern, text: string, from: nat)
    requires from <= |text| && !Here(p, text[from..])
    ensures StarHere(c, p, text, from) <==>
            from < |text| && Accepts(c, text[from]) && StarHere(c, p, text, from + 1)
  {
    if StarHere(c, p, text, from) {
      var k :| from <= k <= |text| && (forall j :: from <= j < k ==> Accepts(c, text[j])) && Here(p, text[k..]);
      assert k != from;
      assert Accepts(c, text[from]);
    }
    if from < |text| && Accepts(c, text[from]) && StarHere(c, p, text, from + 1) {
      var k :| from + 1 <= k <= |text| && (forall j :: from + 1 <= j < k ==> Accepts(c, text[j])) && Here(p, text[k..]);
      assert forall j :: from <= j < k ==> Accepts(c, text[j]);
    }
  }

  lemma HereEmpty(text: string)
    ensures Here(Parse(""), text)
    ensures Here(Parse("$"), text) <==> text == ""
  {
    NoItems(text[..0]);
    assert PrefixOk(Parse(""), text, 0);
    if Here(Parse("$"), text) {
      var n: nat :| PrefixOk(Parse("$"), text, n);
      NoItems(text[..n]);
      assert text[..n] == text;
    }
    if text == "" {
      assert PrefixOk(Parse("$"), text, 0);
    }
  }

  // ---- patterns as strings

  /** c* and then re: some number of accepted characters is skipped. */
  lemma StarInPattern(c: char, re: string, text: string)
    ensures Here(Parse([c] + "*" + re), text) <==>
            exists k :: 0 <= k <= |text| && (forall j :: 0 <= j < k ==> c == '.' || c == text[j]) &&
                        Here(Parse(re), text[k..])
  {
    var all := [c] + "*" + re;
    assert all[0] == c && all[1] == '*' && all[2..] == re;
    HereMany(c, Parse(re), text);
  }

  /** c and then re, where c is not starred and not a final '$': c takes one character. */
  lemma CharInPattern(c: char, re: string, text: string)
    requires (re == [] || re[0] != '*') && !(c == '$' && re == [])
    ensures Here(Parse([c] + re), text) <==> text != [] && (c == '.' || c == text[0]) && Here(Parse(re), text[1..])
  {
    var all := [c] + re;
    assert all[0] == c && all[1..] == re && (|all| >= 2 ==> all[1] == re[0]);
    assert all != "$";
    HereOne(c, Parse(re), text);
  }

  /** matchhere */
  method MatchHere(re: string, text: string) returns (yes: bool)
    ensures yes <==> Here(Parse(re), text)
    decreases |re|, 0
  {
    hide Here;
    if re == [] {
      HereEmpty(text);
      return true;
    }
    if |re| >= 2 && re[1] == '*' {
      HereMany(re[0], Parse(re[2..]), text);
      yes := MatchStar(re[0], re[2..], text);
      return;
    }
    if re[0] == '$' && |re| == 1 {
      assert re == "$";
      HereEmpty(text);
      return text == [];
    }
    HereOne(re[0], Parse(re[1..]), text);
    assert re != "$";
    if text != [] && (re[0] == '.' || re[0] == text[0]) {
      yes := MatchHere(re[1..], text[1..]);
      return;
    }
    return false;
  }

  /** matchstar */
  method MatchStar(c: char, re: string, text: string) returns (yes: bool)
    ensures yes <==> StarHere(c, Parse(re), text, 0)
    decreases |re|, 1
  {
    hide Here, Parse;
    var at := 0;
    while true
      invariant 0 <= at <= |text|
      invariant StarHere(c, Parse(re), text, 0) <==> StarHere(c, Parse(re), text, at)
      decreases |text| - at
    {
      var here := MatchHere(re, text[at..]);
      if here {
        return true;
      }
      StarStep(c, Parse(re), text, at);
      if !(at < |text| && (text[at] == c || c == '.')) {
        return false;
      }
      at := at + 1;
    }
  }

  /** match */
  method Match(re: string, text: string) returns (yes: bool)
    ensures yes <==> Matches(re, text)
  {
    hide Here, Parse;
    if re != [] && re[0] == '^' {
      yes := MatchHere(re[1..], text);
      return;
    }
    var at := 0;
    while true
      invariant 0 <= at <= |text|
      invariant forall start :: 0 <= start < at ==> !Here(Parse(re), text[start..])
      decreases |text| - at
    {
      var here := MatchHere(re, text[at..]);
      if here {
        return true;
      }
      if at == |text| {
        return false;
      }
      at := at + 1;
    }
  }
}
