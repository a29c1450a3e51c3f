/** The pattern matcher of grep (grep.c:64-104) against the language its patterns
    describe. Strings are C strings without the terminator. */
module Grep {

  datatype Atom = Any | Lit(c: char)

  /** A pattern is a sequence of items, maybe anchored at the end. */
  datatype Item = One(atom: Atom) | Star(atom: Atom)

  datatype Pattern = Pattern(items: seq<Item>, end: bool)

  function AtomOf(c: char): Atom {
    if c == '.' then Any else Lit(c)
  }

  /** How a pattern reads: a character followed by '*' is a starred item, even if it is
      '*', '^' or '$' itself; a lone '$' at the end is the anchor; '^', '$' and '*'
      elsewhere stand for themselves. */
  function Parse(re: string): Pattern {
    if re == [] then Pattern([], false)
    else if |re| >= 2 && re[1] == '*' then
      var rest := Parse(re[2..]);
      Pattern([Star(AtomOf(re[0]))] + rest.items, rest.end)
    else if re == "$" then Pattern([], true)
    else
      var rest := Parse(re[1..]);
      Pattern([One(AtomOf(re[0]))] + rest.items, rest.end)
  }

  // ------------------------------------------------------------ what a pattern says

  function AtomText(a: Atom): char {
    if a.Any? then '.' else a.c
  }

  /** A pattern as text. */
  function Text(p: Pattern): string
    decreases |p.items|
  {
    if p.items == [] then (if p.end then "$" else "")
    else
      var rest := Text(Pattern(p.items[1..], p.end));
      if p.items[0].One? then [AtomText(p.items[0].atom)] + rest else [AtomText(p.items[0].atom), '*'] + rest
  }

  /** The patterns there are: '.' is no literal, a literal '*' does not follow an item it would
      star, and a last '$' that is not starred is the anchor. */
  predicate Plain(p: Pattern, afterOne: bool)
    decreases |p.items|
  {
    p.items != [] ==>
      && p.items[0].atom != Lit('.') && !(afterOne && p.items[0].atom == Lit('*'))
      && !(|p.items| == 1 && !p.end && p.items[0] == One(Lit('$')))
      && Plain(Pattern(p.items[1..], p.end), p.items[0].One?)
  }

  /** Every text is that of one pattern, the one it is read as. */
  lemma {:induction false} TextOfParse(re: string, afterOne: bool)
    requires afterOne && re != [] ==> re[0] != '*'
    ensures Text(Parse(re)) == re && Plain(Parse(re), afterOne)
    decreases |re|
  {
    if re == [] {
    } else if |re| >= 2 && re[1] == '*' {
      TextOfParse(re[2..], false);
      ReadItem(Star(AtomOf(re[0])), Parse(re[2..]));
      assert re == [re[0], '*'] + re[2..];
    } else if re == "$" {
    } else {
      TextOfParse(re[1..], true);
      ReadItem(One(AtomOf(re[0])), Parse(re[1..]));
      assert re == [re[0]] + re[1..];
      if Parse(re[1..]) == Pattern([], false) { assert re[1..] == []; }
    }
  }

  lemma ReadItem(item: Item, rest: Pattern)
    ensures var p := Pattern([item] + rest.items, rest.end);
            p.items[0] == item && Pattern(p.items[1..], p.end) == rest
  {
  }

  /** Every pattern is read from its text. */
  lemma {:induction false} ParseOfText(p: Pattern, afterOne: bool)
    requires Plain(p, afterOne)
    ensures Parse(Text(p)) == p
    decreases |p.items|
  {
    if p.items != [] {
      var rest := Pattern(p.items[1..], p.end);
      ParseOfText(rest, p.items[0].One?);
      var item, s, t := p.items[0], Text(p), Text(rest);
      assert p.items == [item] + rest.items;
      if item.Star? {
        assert s[2..] == t;
      } else {
        assert s[1..] == t;
        if t == [] { NoText(rest); }
        else { FirstChar(rest); }
      }
    }
  }

  lemma NoText(p: Pattern)
    requires Text(p) == []
    ensures p == Pattern([], false)
  {
  }

  lemma FirstChar(p: Pattern)
    requires Plain(p, true) && Text(p) != []
    ensures Text(p)[0] != '*'
  {
  }

  // ------------------------------------------------------------ its language

  predicate Covers(a: Atom, c: char) {
    a.Any? || a.c == c
  }

  /** The strings of one item. */
  predicate Fits(item: Item, s: string) {
    && (item.One? ==> |s| == 1)
    && forall i :: 0 <= i < |s| ==> Covers(item.atom, s[i])
  }

  function Concat(parts: seq<string>): string {
    if parts == [] then [] else parts[0] + Concat(parts[1..])
  }

  ghost predicate Splits(items: seq<Item>, parts: seq<string>, s: string) {
    && |parts| == |items| && Concat(parts) == s
    && forall i :: 0 <= i < |items| ==> Fits(items[i], parts[i])
  }

  /** The language of the items: strings that split into one part for each. */
  ghost predicate InLang(items: seq<Item>, s: string) {
    exists parts: seq<string> :: Splits(items, parts, s)
  }

  /** A prefix of length j of text is in the language, respecting the end anchor. */
  ghost predicate MatchesUpTo(p: Pattern, text: string, j: nat) {
    j <= |text| && (p.end ==> j == |text|) && InLang(p.items, text[..j])
  }

  ghost predicate Here(p: Pattern, text: string) {
    exists j: nat :: MatchesUpTo(p, text, j)
  }

  // ------------------------------------------------------------ the language, item by item

  lemma LangNil(s: string)
    ensures InLang([], s) <==> s == []
  {
    if s == [] { assert Splits([], [], s); }
  }

  lemma LangJoin(item: Item, rest: seq<Item>, a: string, b: string)
    requires Fits(item, a) && InLang(rest, b)
    ensures InLang([item] + rest, a + b)
  {
    hide Splits;
    var parts :| Splits(rest, parts, b);
    SplitsJoin(item, rest, a, parts, b);
  }

  lemma SplitsJoin(item: Item, rest: seq<Item>, a: string, parts: seq<string>, b: string)
    requires Fits(item, a) && Splits(rest, parts, b)
    ensures Splits([item] + rest, [a] + parts, a + b)
  {
    hide Fits;
    var all := [a] + parts;
    assert all[0] == a && all[1..] == parts;
    forall i | 0 <= i < |rest| + 1 ensures Fits(([item] + rest)[i], all[i]) {
      if i > 0 { assert ([item] + rest)[i] == rest[i - 1] && all[i] == parts[i - 1]; }
    }
  }

  lemma LangSplit(item: Item, rest: seq<Item>, s: string) returns (k: nat)
    requires InLang([item] + rest, s)
    ensures k <= |s| && Fits(item, s[..k]) && InLang(rest, s[k..])
  {
    var parts :| Splits([item] + rest, parts, s);
    k := |parts[0]|;
    assert s[..k] == parts[0] && s[k..] == Concat(parts[1..]);
    forall i | 0 <= i < |rest| ensures Fits(rest[i], parts[1..][i]) {
      assert ([item] + rest)[i + 1] == rest[i];
    }
    assert ([item] + rest)[0] == item;
    assert Splits(rest, parts[1..], s[k..]);
  }

  /** A match of an item and the rest is a match of the rest after a fitting prefix. */
  lemma HereJoin(item: Item, rest: Pattern, text: string, k: nat)
    requires k <= |text| && Fits(item, text[..k]) && Here(rest, text[k..])
    ensures Here(Pattern([item] + rest.items, rest.end), text)
  {
    var j: nat :| MatchesUpTo(rest, text[k..], j);
    LangJoin(item, rest.items, text[..k], text[k..][..j]);
    assert text[..k] + text[k..][..j] == text[..k + j];
    assert MatchesUpTo(Pattern([item] + rest.items, rest.end), text, k + j);
  }

  lemma HereSplit(item: Item, rest: Pattern, text: string) returns (k: nat)
    requires Here(Pattern([item] + rest.items, rest.end), text)
    ensures k <= |text| && Fits(item, text[..k]) && Here(rest, text[k..])
  {
    var j: nat :| MatchesUpTo(Pattern([item] + rest.items, rest.end), text, j);
    k := LangSplit(item, rest.items, text[..j]);
    assert text[..j][..k] == text[..k];
    assert text[..j][k..] == text[k..][..j - k];
    assert MatchesUpTo(rest, text[k..], j - k);
  }

  lemma HereNil(p: Pattern, text: string)
    requires p.items == []
    ensures Here(p, text) <==> (p.end ==> text == [])
  {
    if Here(p, text) {
      var j: nat :| MatchesUpTo(p, text, j);
      LangNil(text[..j]);
    }
    if p.end ==> text == [] {
      LangNil(text[..0]);
      assert MatchesUpTo(p, text, 0);
    }
  }

  lemma HereOne(a: Atom, rest: Pattern, text: string)
    ensures Here(Pattern([One(a)] + rest.items, rest.end), text) <==>
              text != [] && Covers(a, text[0]) && Here(rest, text[1..])
  {
    if Here(Pattern([One(a)] + rest.items, rest.end), text) {
      var k := HereSplit(One(a), rest, text);
      assert text[..k][0] == text[0];
    }
    if text != [] && Covers(a, text[0]) && Here(rest, text[1..]) {
      HereJoin(One(a), rest, text, 1);
    }
  }

  /** The rest matches after i characters that the starred atom covers. */
  ghost predicate StarAt(a: Atom, rest: Pattern, text: string, i: nat) {
    i <= |text| && Fits(Star(a), text[..i]) && Here(rest, text[i..])
  }

  ghost predicate AfterStar(a: Atom, rest: Pattern, text: string) {
    exists i: nat :: StarAt(a, rest, text, i)
  }

  lemma HereStar(a: Atom, rest: Pattern, text: string)
    ensures Here(Pattern([Star(a)] + rest.items, rest.end), text) <==> AfterStar(a, rest, text)
  {
    if Here(Pattern([Star(a)] + rest.items, rest.end), text) {
      var k := HereSplit(Star(a), rest, text);
      assert StarAt(a, rest, text, k);
    }
    if i: nat :| StarAt(a, rest, text, i) {
      HereJoin(Star(a), rest, text, i);
    }
  }

  // ------------------------------------------------------------ the matcher

  /** matchhere (grep.c:83-94). */
  method Matchhere(re: string, text: string) returns (r: bool)
    ensures r <==> Here(Parse(re), text)
    decreases |re|
  {
    hide Here, AfterStar;
    if re == [] {
      HereNil(Parse(re), text);
      return true;
    }
    if |re| >= 2 && re[1] == '*' {
      r := Matchstar(re[0], re[2..], text);
      HereStar(AtomOf(re[0]), Parse(re[2..]), text);
      assert Parse(re) == Pattern([Star(AtomOf(re[0]))] + Parse(re[2..]).items, Parse(re[2..]).end);
      return;
    }
    if re[0] == '$' && |re| == 1 {
      assert re == "$";
      HereNil(Parse(re), text);
      return text == [];
    }
    HereOne(AtomOf(re[0]), Parse(re[1..]), text);
    assert Parse(re) == Pattern([One(AtomOf(re[0]))] + Parse(re[1..]).items, Parse(re[1..]).end);
    if text != [] && (re[0] == '.' || re[0] == text[0]) {
      r := Matchhere(re[1..], text[1..]);
      return;
    }
    return false;
  }

  /** matchstar (grep.c:97-104): the loop stops at the first place where the rest
      matches, or when c no longer covers the text. */
  method Matchstar(c: char, re: string, text: string) returns (r: bool)
    ensures r <==> AfterStar(AtomOf(c), Parse(re), text)
    decreases |re| + 1
  {
    hide Here, Parse;
    var a := AtomOf(c);
    var i := 0;
    while true
      invariant i <= |text| && Fits(Star(a), text[..i])
      invariant forall k :: 0 <= k < i ==> !StarAt(a, Parse(re), text, k)
      decreases |text| - i
    {
      r := Matchhere(re, text[i..]);
      if r {
        assert StarAt(a, Parse(re), text, i);
        return true;
      }
      assert !StarAt(a, Parse(re), text, i);
      if i == |text| || !(text[i] == c || c == '.') { break; }
      i := i + 1;
    }
    forall k | k > i ensures !StarAt(a, Parse(re), text, k) {
      if k <= |text| { assert text[..k][i] == text[i]; }
    }
    return false;
  }

  /** The substring of text from i to j matches, respecting the anchors. */
  ghost predicate Matches(p: Pattern, start: bool, text: string, i: nat, j: nat) {
    && i <= j <= |text| && (start ==> i == 0) && (p.end ==> j == |text|)
    && InLang(p.items, text[i..j])
  }

  lemma HereMatches(p: Pattern, start: bool, text: string, i: nat)
    requires i <= |text| && (start ==> i == 0)
    ensures Here(p, text[i..]) <==> exists j: nat :: Matches(p, start, text, i, j)
  {
    hide InLang;
    if Here(p, text[i..]) {
      var k: nat :| MatchesUpTo(p, text[i..], k);
      assert text[i..][..k] == text[i..i + k];
      assert Matches(p, start, text, i, i + k);
    }
    if j: nat :| Matches(p, start, text, i, j) {
      assert text[i..][..j - i] == text[i..j];
      assert MatchesUpTo(p, text[i..], j - i);
    }
  }

  predicate Anchored(re: string) {
    |re| > 0 && re[0] == '^'
  }

  /** match (grep.c:70-80): true exactly when a substring of the text is in the language
      of the pattern, at the start under '^' and up to the end under '$'. */
  method Match(re: string, text: string) returns (r: bool)
    ensures var p := Parse(if Anchored(re) then re[1..] else re);
            r <==> exists i: nat, j: nat :: Matches(p, Anchored(re), text, i, j)
  {
    hide Here, Matches, Parse;
    if Anchored(re) {
      r := Matchhere(re[1..], text);
      HereMatches(Parse(re[1..]), true, text, 0);
      assert text[0..] == text;
      forall i: nat, j: nat | i > 0 ensures !Matches(Parse(re[1..]), true, text, i, j) {
        OnlyAtStart(Parse(re[1..]), text, i, j);
      }
      return;
    }
    var i := 0;
    while true
      invariant i <= |text|
      invariant forall k: nat, j: nat :: k < i ==> !Matches(Parse(re), false, text, k, j)
      decreases |text| - i
    {
      r := Matchhere(re, text[i..]);
      HereMatches(Parse(re), false, text, i);
      if r { return true; }
      if i == |text| { break; }
      i := i + 1;
    }
    forall k: nat, j: nat | k > |text| ensures !Matches(Parse(re), false, text, k, j) {
      OnlyWithin(Parse(re), text, k, j);
    }
    return false;
  }

  lemma OnlyAtStart(p: Pattern, text: string, i: nat, j: nat)
    requires i > 0
    ensures !Matches(p, true, text, i, j)
  {
  }

  lemma OnlyWithin(p: Pattern, text: string, i: nat, j: nat)
    requires i > |text|
    ensures !Matches(p, false, text, i, j)
  {
  }
}
