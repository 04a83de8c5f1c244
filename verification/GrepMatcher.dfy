/**
 The regular-expression matcher of grep: match, matchhere and matchstar, proved against the
 language that the parsed pattern denotes.
 */
module GrepMatcher {

  /** One element of a pattern: a character, or a character followed by a star; '.' fits anything. */
  datatype Item = One(c: char) | Many(c: char)

  /** AtEnd is a final '$'. */
  datatype Pattern = Done | AtEnd | Then(item: Item, rest: Pattern)

  /** The contents of a C string, without its terminator. */
  predicate CString(s: string) {
    '\0' !in s
  }

  predicate Fits(c: char, x: char) {
    c == '.' || c == x
  }

  function Parse(re: string): Pattern {
    if re == "" then Done
    else if |re| >= 2 && re[1] == '*' then Then(Many(re[0]), Parse(re[2..]))
    else if re == "$" then AtEnd
    else Then(One(re[0]), Parse(re[1..]))
  }

  ghost predicate InItem(item: Item, s: string) {
    match item
    case One(c) => |s| == 1 && Fits(c, s[0])
    case Many(c) => forall i :: 0 <= i < |s| ==> Fits(c, s[i])
  }

  /** The language of a pattern: concatenation of the languages of its items. */
  ghost predicate InLanguage(p: Pattern, s: string) {
    match p
    case Then(item, rest) => exists k :: 0 <= k <= |s| && InItem(item, s[..k]) && InLanguage(rest, s[k..])
    case _ => s == ""
  }

  predicate Anchored(p: Pattern) {
    match p
    case Done => false
    case AtEnd => true
    case Then(_, rest) => Anchored(rest)
  }

  /** text[i..j] is in the language of the pattern, and reaches the end of the text if it has to. */
  ghost predicate Occurs(p: Pattern, text: string, i: int, j: int) {
    0 <= i <= j <= |text| && InLanguage(p, text[i..j]) && (Anchored(p) ==> j == |text|)
  }

  /** Some prefix of the text is in the language of the pattern. */
  ghost predicate Here(p: Pattern, text: string) {
    exists j :: Occurs(p, text, 0, j)
  }

  /** What grep promises: some part of the text matches, the leading part if the pattern starts with '^'. */
  ghost predicate Matches(re: string, text: string) {
    if re != "" && re[0] == '^' then exists j :: Occurs(Parse(re[1..]), text, 0, j)
    else exists i, j :: Occurs(Parse(re), text, i, j)
  }

  /** A prefix matches exactly when its first item takes some part and the rest matches what follows. */
  lemma HereThen(item: Item, rest: Pattern, text: string)
    ensures Here(Then(item, rest), text) <==>
            exists k :: 0 <= k <= |text| && InItem(item, text[..k]) && Here(rest, text[k..])
  {
    if Here(Then(item, rest), text) {
      var k := FirstItem(item, rest, text);
    }
    if k :| 0 <= k <= |text| && InItem(item, text[..k]) && Here(rest, text[k..]) {
      var j :| Occurs(rest, text[k..], 0, j);
      var s := text[0..k + j];
      assert s[..k] == text[..k] && s[k..] == text[k..][0..j];
      assert Occurs(Then(item, rest), text, 0, k + j);
    }
  }

  lemma FirstItem(item: Item, rest: Pattern, text: string) returns (k: int)
    requires Here(Then(item, rest), text)
    ensures 0 <= k <= |text| && InItem(item, text[..k]) && Here(rest, text[k..])
  {
    var j :| Occurs(Then(item, rest), text, 0, j);
    var s := text[0..j];
    k :| 0 <= k <= |s| && InItem(item, s[..k]) && InLanguage(rest, s[k..]);
    assert s[..k] == text[..k];
    assert s[k..] == text[k..][0..j - k];
    assert Occurs(rest, text[k..], 0, j - k);
  }

  lemma HereOne(c: char, rest: Pattern, text: string)
    ensures Here(Then(One(c), rest), text) <==> text != "" && Fits(c, text[0]) && Here(rest, text[1..])
  {
    HereThen(One(c), rest, text);
  }

  lemma HereEmpty(text: string)
    ensures Here(Done, text)
    ensures Here(AtEnd, text) <==> text == ""
  {
    assert Occurs(Done, text, 0, 0);
    if text == "" {
      assert Occurs(AtEnd, text, 0, 0);
    }
  }

  /** Shifting the start of an occurrence. */
  lemma OccursShift(p: Pattern, text: string, i: nat)
    requires i <= |text|
    ensures Here(p, text[i..]) <==> exists j :: Occurs(p, text, i, j)
  {
    if j :| Occurs(p, text, i, j) {
      assert text[i..j] == text[i..][0..j - i];
      assert Occurs(p, text[i..], 0, j - i);
    }
    if j :| Occurs(p, text[i..], 0, j) {
      assert text[i..i + j] == text[i..][0..j];
      assert Occurs(p, text, i, i + j);
    }
  }

  method MatchHere(re: string, text: string) returns (r: bool)
    requires CString(re) && CString(text)
    ensures r <==> Here(Parse(re), text)
    decreases |re|, 0
  {
    HereEmpty(text);
    if re == "" {
      return true;
    }
    if |re| >= 2 && re[1] == '*' {
      r := MatchStar(re[0], re[2..], text);
      HereThen(Many(re[0]), Parse(re[2..]), text);
      return r;
    }
    if re == "$" {
      return text == "";
    }
    HereOne(re[0], Parse(re[1..]), text);
    if text != "" && (re[0] == '.' || re[0] == text[0]) {
      r := MatchHere(re[1..], text[1..]);
      return r;
    }
    return false;
  }

  /** Tries the rest of the pattern after zero, one, two, ... characters that fit c. */
  method MatchStar(c: char, re: string, text: string) returns (r: bool)
    requires CString(re) && CString(text)
    ensures r <==> exists k :: 0 <= k <= |text| && InItem(Many(c), text[..k]) && Here(Parse(re), text[k..])
    decreases |re|, 1
  {
    var t := 0;
    while true
      invariant 0 <= t <= |text|
      invariant forall i :: 0 <= i < t ==> Fits(c, text[i])
      invariant forall k :: 0 <= k < t ==> !Here(Parse(re), text[k..])
      decreases |text| - t
    {
      r := MatchHere(re, text[t..]);
      if r {
        assert InItem(Many(c), text[..t]);
        return true;
      }
      if t == |text| || !(text[t] == c || c == '.') {
        break;
      }
      t := t + 1;
    }
    forall k | 0 <= k <= |text| && InItem(Many(c), text[..k])
      ensures k <= t
    {
      assert forall i :: 0 <= i < k ==> text[..k][i] == text[i];
    }
    return false;
  }

  method Match(re: string, text: string) returns (r: bool)
    requires CString(re) && CString(text)
    ensures r <==> Matches(re, text)
  {
    if re != "" && re[0] == '^' {
      r := MatchHere(re[1..], text);
      return r;
    }
    ghost var p := Parse(re);
    var t := 0;
    while true
      invariant 0 <= t <= |text|
      invariant forall i, j :: 0 <= i < t ==> !Occurs(p, text, i, j)
      decreases |text| - t
    {
      r := MatchHere(re, text[t..]);
      OccursShift(p, text, t);
      if r {
        return true;
      }
      if t == |text| {
        break;
      }
      t := t + 1;
    }
    return false;
  }
}
