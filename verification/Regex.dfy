/** The matchers of grep and find, against one declarative language of patterns. Strings hold no NUL. */
module Regex {
  /** A pattern is a sequence of single characters and starred ones; '.' stands for any character. */
  datatype Item = One(c: char) | Star(c: char)

  function Parse(re: string): seq<Item> {
    if re == "" then []
    else if |re| > 1 && re[1] == '*' then [Star(re[0])] + Parse(re[2..])
    else [One(re[0])] + Parse(re[1..])
  }

  predicate Hit(c: char, x: char) {
    c == '.' || c == x
  }

  ghost predicate Fits(item: Item, w: string) {
    match item
    case One(c) => |w| == 1 && Hit(c, w[0])
    case Star(c) => forall i :: 0 <= i < |w| ==> Hit(c, w[i])
  }

  ghost function Concat(ws: seq<string>): string {
    if ws == [] then "" else ws[0] + Concat(ws[1..])
  }

  ghost predicate Spells(items: seq<Item>, ws: seq<string>) {
    |ws| == |items| && forall i :: 0 <= i < |ws| ==> Fits(items[i], ws[i])
  }

  /** A text is in the language when it splits into one fitting word per item. */
  ghost predicate InLang(items: seq<Item>, t: string) {
    exists ws :: Spells(items, ws) && Concat(ws) == t
  }

  lemma LangNil(t: string)
    ensures InLang([], t) <==> t == ""
  {
    if t == "" {
      assert Spells([], []) && Concat([]) == "";
    }
  }

  lemma LangCons(x: Item, rest: seq<Item>, t: string)
    ensures InLang([x] + rest, t) <==> exists k :: 0 <= k <= |t| && Fits(x, t[..k]) && InLang(rest, t[k..])
  {
    var items := [x] + rest;
    if InLang(items, t) {
      var ws :| Spells(items, ws) && Concat(ws) == t;
      var k := |ws[0]|;
      assert t[..k] == ws[0] && t[k..] == Concat(ws[1..]);
      assert Spells(rest, ws[1..]) by {
        forall i | 0 <= i < |rest|
          ensures Fits(rest[i], ws[1..][i])
        {
          assert Fits(items[i + 1], ws[i + 1]);
        }
      }
      assert Fits(x, t[..k]) && InLang(rest, t[k..]);
    }
    if k :| 0 <= k <= |t| && Fits(x, t[..k]) && InLang(rest, t[k..]) {
      var ws :| Spells(rest, ws) && Concat(ws) == t[k..];
      var ws' := [t[..k]] + ws;
      assert ws'[1..] == ws;
      assert Concat(ws') == t[..k] + t[k..] == t;
      assert Spells(items, ws');
    }
  }

  lemma LangOne(c: char, rest: seq<Item>, t: string)
    ensures InLang([One(c)] + rest, t) <==> t != "" && Hit(c, t[0]) && InLang(rest, t[1..])
  {
    hide InLang, Hit;
    LangCons(One(c), rest, t);
    if t != "" && Hit(c, t[0]) && InLang(rest, t[1..]) {
      assert Fits(One(c), t[..1]);
    }
  }

  lemma LangStar(c: char, rest: seq<Item>, t: string)
    ensures InLang([Star(c)] + rest, t) <==>
      InLang(rest, t) || (t != "" && Hit(c, t[0]) && InLang([Star(c)] + rest, t[1..]))
  {
    hide InLang, Hit;
    LangCons(Star(c), rest, t);
    if InLang(rest, t) {
      assert t[0..] == t && Fits(Star(c), t[..0]);
    }
    if t != "" {
      LangCons(Star(c), rest, t[1..]);
      if Hit(c, t[0]) && InLang([Star(c)] + rest, t[1..]) {
        var k :| 0 <= k <= |t[1..]| && Fits(Star(c), t[1..][..k]) && InLang(rest, t[1..][k..]);
        assert t[1..][k..] == t[k + 1..];
        var v, w := t[..k + 1], t[1..][..k];
        forall i | 0 <= i < |v|
          ensures Hit(c, v[i])
        {
          assert i > 0 ==> v[i] == w[i - 1];
        }
      }
      if k :| 0 < k <= |t| && Fits(Star(c), t[..k]) && InLang(rest, t[k..]) {
        assert t[1..][k - 1..] == t[k..];
        assert Hit(c, t[..k][0]);
        var v, w := t[..k], t[1..][..k - 1];
        forall i | 0 <= i < |w|
          ensures Hit(c, w[i])
        {
          assert w[i] == v[i + 1];
        }
      }
    }
  }

  /** find's matcher. */
  predicate Compare(t: string, p: string)
    decreases |p|, |t|
  {
    if p == "" then t == ""
    else if !(|p| > 1 && p[1] == '*') then
      t != "" && (t[0] == p[0] || p[0] == '.') && Compare(t[1..], p[1..])
    else if t != "" && (t[0] == p[0] || p[0] == '.') then
      Compare(t, p[2..]) || Compare(t[1..], p)
    else
      Compare(t, p[2..])
  }

  /** compare accepts exactly the texts in the language of the pattern. */
  lemma {:induction false} CompareLang(t: string, p: string)
    ensures Compare(t, p) <==> InLang(Parse(p), t)
    decreases |p|, |t|
  {
    hide InLang;
    if p == "" {
      LangNil(t);
    } else if !(|p| > 1 && p[1] == '*') {
      LangOne(p[0], Parse(p[1..]), t);
      if t != "" {
        CompareLang(t[1..], p[1..]);
      }
    } else {
      LangStar(p[0], Parse(p[2..]), t);
      CompareLang(t, p[2..]);
      if t != "" {
        CompareLang(t[1..], p);
      }
    }
  }

  /** In grep a '$' that ends the pattern, unstarred, stands for the end of the text. */
  predicate AtEnd(items: seq<Item>) {
    |items| > 0 && items[|items| - 1] == One('$')
  }

  function Body(items: seq<Item>): seq<Item> {
    if AtEnd(items) then items[..|items| - 1] else items
  }

  ghost predicate PrefixIn(items: seq<Item>, whole: bool, t: string, k: int) {
    0 <= k <= |t| && InLang(items, t[..k]) && (whole ==> k == |t|)
  }

  /** Some prefix of the text, the whole text before a closing '$', is in the language. */
  ghost predicate Begins(items: seq<Item>, t: string) {
    exists k :: PrefixIn(Body(items), AtEnd(items), t, k)
  }

  lemma BodyCons(x: Item, rest: seq<Item>)
    requires rest != [] || x != One('$')
    ensures Body([x] + rest) == [x] + Body(rest) && AtEnd([x] + rest) == AtEnd(rest)
  {
  }

  lemma BeginsNil(t: string)
    ensures Begins([], t) && (Begins([One('$')], t) <==> t == "")
  {
    LangNil("");
    assert PrefixIn(Body([]), AtEnd([]), t, 0);
    assert Body([One('$')]) == [];
    LangNil(t);
    if t == "" {
      assert PrefixIn([], true, t, 0);
    }
    if k :| PrefixIn([], true, t, k) {
      assert t[..k] == t;
    }
  }

  lemma BeginsOne(c: char, rest: seq<Item>, t: string)
    requires rest != [] || c != '$'
    ensures Begins([One(c)] + rest, t) <==> t != "" && Hit(c, t[0]) && Begins(rest, t[1..])
  {
    hide InLang, Hit, AtEnd, Body;
    BodyCons(One(c), rest);
    var body, whole := Body(rest), AtEnd(rest);
    if k :| PrefixIn([One(c)] + body, whole, t, k) {
      LangOne(c, body, t[..k]);
      assert t[..k][1..] == t[1..][..k - 1];
      assert PrefixIn(body, whole, t[1..], k - 1);
    }
    if t != "" && Hit(c, t[0]) && Begins(rest, t[1..]) {
      var k :| PrefixIn(body, whole, t[1..], k);
      LangOne(c, body, t[..k + 1]);
      assert t[..k + 1][1..] == t[1..][..k];
      assert PrefixIn([One(c)] + body, whole, t, k + 1);
    }
  }

  lemma BeginsStar(c: char, rest: seq<Item>, t: string)
    ensures Begins([Star(c)] + rest, t) <==>
      Begins(rest, t) || (t != "" && Hit(c, t[0]) && Begins([Star(c)] + rest, t[1..]))
  {
    hide InLang, Hit, AtEnd, Body;
    BodyCons(Star(c), rest);
    var body, whole := Body(rest), AtEnd(rest);
    var all := [Star(c)] + body;
    if k :| PrefixIn(all, whole, t, k) {
      LangStar(c, body, t[..k]);
      if InLang(body, t[..k]) {
        assert PrefixIn(body, whole, t, k);
      } else {
        assert t[..k][1..] == t[1..][..k - 1];
        assert PrefixIn(all, whole, t[1..], k - 1);
      }
    }
    if k :| PrefixIn(body, whole, t, k) {
      LangStar(c, body, t[..k]);
      assert PrefixIn(all, whole, t, k);
    }
    if t != "" && Hit(c, t[0]) && Begins([Star(c)] + rest, t[1..]) {
      var k :| PrefixIn(all, whole, t[1..], k);
      LangStar(c, body, t[..k + 1]);
      assert t[..k + 1][1..] == t[1..][..k];
      assert PrefixIn(all, whole, t, k + 1);
    }
  }

  /** matchhere accepts exactly when a prefix of the text is in the language. */
  method MatchHere(re: string, text: string) returns (r: bool)
    ensures r <==> Begins(Parse(re), text)
    decreases |re|, 0
  {
    hide Begins, Hit;
    BeginsNil(text);
    if re == "" {
      return true;
    }
    if |re| > 1 && re[1] == '*' {
      r := MatchStar(re[0], re[2..], text);
      return;
    }
    if re == "$" {
      assert Parse(re) == [One('$')];
      return text == "";
    }
    assert Parse(re[1..]) != [] || re[0] != '$';
    BeginsOne(re[0], Parse(re[1..]), text);
    if text != "" && (re[0] == '.' || re[0] == text[0]) {
      r := MatchHere(re[1..], text[1..]);
      assert Hit(re[0], text[0]) by { HitMeans(re[0], text[0]); }
      return;
    }
    assert text == "" || !Hit(re[0], text[0]) by {
      if text != "" {
        HitMeans(re[0], text[0]);
      }
    }
    return false;
  }

  lemma HitMeans(c: char, x: char)
    ensures Hit(c, x) <==> c == '.' || c == x
  {
  }

  /** matchstar: zero or more of c, then the rest of the pattern. */
  method MatchStar(c: char, re: string, text: string) returns (r: bool)
    ensures r <==> Begins([Star(c)] + Parse(re), text)
    decreases |re|, 1
  {
    hide Begins;
    var t := text;
    while true
      invariant Begins([Star(c)] + Parse(re), text) <==> Begins([Star(c)] + Parse(re), t)
      decreases |t|
    {
      BeginsStar(c, Parse(re), t);
      r := MatchHere(re, t);
      if r {
        return true;
      }
      if !(t != "" && (t[0] == c || c == '.')) {
        break;
      }
      t := t[1..];
    }
    return false;
  }

  /** What match looks for: at the start of the text after '^', anywhere otherwise. */
  ghost predicate Matches(re: string, text: string) {
    if re != "" && re[0] == '^' then Begins(Parse(re[1..]), text)
    else exists i :: 0 <= i <= |text| && Begins(Parse(re), text[i..])
  }

  /** grep's match. */
  method Match(re: string, text: string) returns (r: bool)
    ensures r <==> Matches(re, text)
  {
    hide Begins, Parse;
    if re != "" && re[0] == '^' {
      r := MatchHere(re[1..], text);
      return;
    }
    var i := 0;
    while true
      invariant 0 <= i <= |text| && forall j :: 0 <= j < i ==> !Begins(Parse(re), text[j..])
      decreases |text| - i
    {
      r := MatchHere(re, text[i..]);
      if r {
        return true;
      }
      if i == |text| {
        break;
      }
      i := i + 1;
    }
    return false;
  }

  /** A closing '$' is never starred and never stars, so it is the last item. */
  lemma {:induction false} ParseDollar(p: string)
    ensures Parse(p + "$") == Parse(p) + [One('$')]
  {
    if p == "" {
      assert p + "$" == "$";
      assert Parse("$") == [One('$')] + Parse("$"[1..]);
    } else if |p| > 1 && p[1] == '*' {
      ParseDollar(p[2..]);
      assert (p + "$")[2..] == p[2..] + "$";
    } else {
      ParseDollar(p[1..]);
      assert (p + "$")[1..] == p[1..] + "$";
    }
  }

  /** The two programs agree: find's compare is grep's match with the pattern anchored at both ends. */
  lemma CompareIsMatch(t: string, p: string)
    ensures Compare(t, p) <==> Matches("^" + p + "$", t)
  {
    hide InLang, Parse, Compare;
    CompareLang(t, p);
    var re := "^" + p + "$";
    assert re[1..] == p + "$";
    ParseDollar(p);
    var items := Parse(p) + [One('$')];
    assert Body(items) == Parse(p) && AtEnd(items);
    assert t[..|t|] == t;
    if InLang(Parse(p), t) {
      assert PrefixIn(Body(items), true, t, |t|);
    }
  }
}
