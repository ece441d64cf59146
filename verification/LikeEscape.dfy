/** LIKE patterns read with and without their ESCAPE clause. */
module LikeEscape {
  import opened Base
  import opened Values

  /** The characters the escape character quotes; at the very end it quotes nothing. */
  function Quoted(pattern: string, c: char): seq<char> {
    if |pattern| < 2 then []
    else if pattern[0] == c then [pattern[1]] + Quoted(pattern[2..], c)
    else Quoted(pattern[1..], c)
  }

  /** Whoever matches with the clause also matches without it. */
  predicate QuoteHarmless(pattern: string, c: char) {
    || c == '%'
    || Quoted(pattern, c) == []
    || (c == '_' && AllPercent(Quoted(pattern, c)))
  }

  predicate AllPercent(q: seq<char>) { forall i :: 0 <= i < |q| ==> q[i] == '%' }

  /** A clause that quotes nothing means nothing. */
  lemma {:induction false} IdleAgrees(s: string, pattern: string, c: char, caseless: bool)
    requires Quoted(pattern, c) == []
    ensures LikeMatches(s, pattern, Some(c), caseless) == LikeMatches(s, pattern, None, caseless)
    decreases |pattern|, |s|
  {
    if pattern != [] {
      if pattern[0] == '%' {
        IdleAgrees(s, pattern[1..], c, caseless);
        if s != [] { IdleAgrees(s[1..], pattern, c, caseless); }
      } else if s != [] {
        IdleAgrees(s[1..], pattern[1..], c, caseless);
      }
    }
  }

  /** Reading the quoting `%` or `_` as a wildcard leaves room for what it quotes. */
  lemma {:induction false} WildcardKeeps(s: string, pattern: string, c: char, caseless: bool)
    requires c == '%' || (c == '_' && OnlyPercent(pattern, c))
    requires LikeMatches(s, pattern, Some(c), caseless)
    ensures LikeMatches(s, pattern, None, caseless)
    decreases |pattern|, |s|
  {
    if pattern != [] {
      if pattern[0] == c && |pattern| >= 2 {
        WildcardKeeps(s[1..], pattern[2..], c, caseless);
        QuotedStep(s, pattern, c, caseless);
      } else if pattern[0] == '%' {
        if LikeMatches(s, pattern[1..], Some(c), caseless) {
          WildcardKeeps(s, pattern[1..], c, caseless);
        } else {
          WildcardKeeps(s[1..], pattern, c, caseless);
        }
      } else {
        WildcardKeeps(s[1..], pattern[1..], c, caseless);
      }
    }
  }

  lemma QuotedStep(s: string, pattern: string, c: char, caseless: bool)
    requires |pattern| >= 2 && pattern[0] == c && s != [] && SameChar(s[0], pattern[1], caseless)
    requires c == '%' || (c == '_' && pattern[1] == '%')
    requires LikeMatches(s[1..], pattern[2..], None, caseless)
    ensures LikeMatches(s, pattern, None, caseless)
  {
    var rest := pattern[1..];
    assert rest[0] == pattern[1] && rest[1..] == pattern[2..];
    if c == '%' {
      if rest[0] == '%' {
        assert LikeMatches(s[1..], rest, None, caseless);
        assert LikeMatches(s, rest, None, caseless);
      } else {
        assert LikeMatches(s, rest, None, caseless);
      }
    } else {
      assert LikeMatches(s[1..], rest, None, caseless);
    }
  }

  /** Nothing but `%` is quoted. */
  predicate OnlyPercent(pattern: string, c: char) {
    if |pattern| < 2 then true
    else if pattern[0] == c then pattern[1] == '%' && OnlyPercent(pattern[2..], c)
    else OnlyPercent(pattern[1..], c)
  }

  lemma PercentCons(x: char, rest: seq<char>)
    ensures AllPercent([x] + rest) <==> x == '%' && AllPercent(rest)
  {
    var q := [x] + rest;
    assert q[0] == x;
    assert forall i :: 0 <= i < |rest| ==> q[i + 1] == rest[i];
    if AllPercent(q) {
      forall i | 0 <= i < |rest| ensures rest[i] == '%' { assert q[i + 1] == '%'; }
    }
  }

  lemma {:induction false} OnlyPercentIs(pattern: string, c: char)
    ensures OnlyPercent(pattern, c) <==> AllPercent(Quoted(pattern, c))
  {
    if |pattern| >= 2 {
      if pattern[0] == c {
        OnlyPercentIs(pattern[2..], c);
        PercentCons(pattern[1], Quoted(pattern[2..], c));
      } else {
        OnlyPercentIs(pattern[1..], c);
      }
    }
  }

  // ---- A text that needs the clause -----------------------------------------

  /** What can stand for the escape character counts twice. */
  function Weight(ch: char, c: char, caseless: bool): nat {
    if c != '_' && SameChar(ch, c, caseless) then 2 else 1
  }

  function TextWeight(s: string, c: char, caseless: bool): nat {
    if s == [] then 0 else Weight(s[0], c, caseless) + TextWeight(s[1..], c, caseless)
  }

  /** The least weight of a text that matches without the clause. */
  function Need(pattern: string, c: char, caseless: bool): nat {
    if pattern == [] then 0
    else if pattern[0] == '%' then Need(pattern[1..], c, caseless)
    else (if pattern[0] == '_' then 1 else Weight(pattern[0], c, caseless)) + Need(pattern[1..], c, caseless)
  }

  lemma {:induction false} NeedBound(s: string, pattern: string, c: char, caseless: bool)
    requires LikeMatches(s, pattern, None, caseless)
    ensures TextWeight(s, c, caseless) >= Need(pattern, c, caseless)
    decreases |pattern|, |s|
  {
    if pattern != [] {
      if pattern[0] == '%' {
        if LikeMatches(s, pattern[1..], None, caseless) {
          NeedBound(s, pattern[1..], c, caseless);
        } else {
          NeedBound(s[1..], pattern, c, caseless);
        }
      } else {
        NeedBound(s[1..], pattern[1..], c, caseless);
      }
    }
  }

  function Filler(c: char): char { if c == 'a' || c == 'A' then 'b' else 'a' }

  /** The shortest text that matches with the clause. */
  function Shortest(pattern: string, c: char): string {
    if pattern == [] then []
    else if pattern[0] == c && |pattern| >= 2 then [pattern[1]] + Shortest(pattern[2..], c)
    else if pattern[0] == '%' then Shortest(pattern[1..], c)
    else [if pattern[0] == '_' then Filler(c) else pattern[0]] + Shortest(pattern[1..], c)
  }

  lemma {:induction false} ShortestMatches(pattern: string, c: char, caseless: bool)
    ensures LikeMatches(Shortest(pattern, c), pattern, Some(c), caseless)
  {
    if pattern != [] {
      var s := Shortest(pattern, c);
      if pattern[0] == c && |pattern| >= 2 {
        ShortestMatches(pattern[2..], c, caseless);
        assert s[1..] == Shortest(pattern[2..], c);
      } else {
        ShortestMatches(pattern[1..], c, caseless);
        if pattern[0] != '%' { assert s[1..] == Shortest(pattern[1..], c); }
      }
    }
  }

  /** Something is lost without the clause. */
  predicate Loses(pattern: string, c: char) {
    if c == '_' then !OnlyPercent(pattern, c) else Quoted(pattern, c) != []
  }

  /** It weighs less than any match without the clause as soon as something is lost. */
  predicate Lighter(pattern: string, c: char, caseless: bool) {
    var light, need := TextWeight(Shortest(pattern, c), c, caseless), Need(pattern, c, caseless);
    light <= need && (Loses(pattern, c) ==> light < need)
  }

  lemma LighterQuoted(pattern: string, c: char, caseless: bool)
    requires c != '%' && |pattern| >= 2 && pattern[0] == c && Lighter(pattern[2..], c, caseless)
    ensures Lighter(pattern, c, caseless)
  {
    assert Shortest(pattern, c)[1..] == Shortest(pattern[2..], c);
    assert pattern[1..][1..] == pattern[2..];
  }

  lemma LighterPlain(pattern: string, c: char, caseless: bool)
    requires c != '%' && pattern != [] && (pattern[0] != c || |pattern| < 2) && Lighter(pattern[1..], c, caseless)
    ensures Lighter(pattern, c, caseless)
  {
    if pattern[0] != '%' { assert Shortest(pattern, c)[1..] == Shortest(pattern[1..], c); }
  }

  lemma {:induction false} ShortestLight(pattern: string, c: char, caseless: bool)
    requires c != '%'
    ensures Lighter(pattern, c, caseless)
  {
    if pattern != [] {
      if pattern[0] == c && |pattern| >= 2 {
        ShortestLight(pattern[2..], c, caseless);
        LighterQuoted(pattern, c, caseless);
      } else {
        ShortestLight(pattern[1..], c, caseless);
        LighterPlain(pattern, c, caseless);
      }
    }
  }

  /** Dropping the clause loses no match exactly when the escape character is `%`, quotes
      nothing, or is `_` and quotes only `%`. */
  lemma EscapeDropIff(pattern: string, c: char, caseless: bool)
    ensures QuoteHarmless(pattern, c) <==>
      forall s: string :: LikeMatches(s, pattern, Some(c), caseless) ==> LikeMatches(s, pattern, None, caseless)
  {
    if QuoteHarmless(pattern, c) {
      forall s: string | LikeMatches(s, pattern, Some(c), caseless) ensures LikeMatches(s, pattern, None, caseless) {
        HarmlessKeeps(s, pattern, c, caseless);
      }
    } else {
      HarmfulLoses(pattern, c, caseless);
    }
  }

  lemma HarmlessKeeps(s: string, pattern: string, c: char, caseless: bool)
    requires QuoteHarmless(pattern, c) && LikeMatches(s, pattern, Some(c), caseless)
    ensures LikeMatches(s, pattern, None, caseless)
  {
    if Quoted(pattern, c) == [] {
      IdleAgrees(s, pattern, c, caseless);
    } else {
      OnlyPercentIs(pattern, c);
      WildcardKeeps(s, pattern, c, caseless);
    }
  }

  lemma HarmfulLoses(pattern: string, c: char, caseless: bool)
    requires !QuoteHarmless(pattern, c)
    ensures LikeMatches(Shortest(pattern, c), pattern, Some(c), caseless)
    ensures !LikeMatches(Shortest(pattern, c), pattern, None, caseless)
  {
    ShortestMatches(pattern, c, caseless);
    OnlyPercentIs(pattern, c);
    ShortestLight(pattern, c, caseless);
    if LikeMatches(Shortest(pattern, c), pattern, None, caseless) {
      NeedBound(Shortest(pattern, c), pattern, c, caseless);
    }
  }

  // ---- Patterns without a run -----------------------------------------------

  /** Without `%` a pattern has texts of one length only: its own, less one per quotation. */
  lemma {:induction false} FixedLength(s: string, pattern: string, escape: Option<char>, caseless: bool)
    requires '%' !in pattern && LikeMatches(s, pattern, escape, caseless)
    ensures |s| == |pattern| - if escape.Some? then |Quoted(pattern, escape.value)| else 0
  {
    if pattern != [] {
      if escape == Some(pattern[0]) && |pattern| >= 2 {
        FixedLength(s[1..], pattern[2..], escape, caseless);
      } else {
        FixedLength(s[1..], pattern[1..], escape, caseless);
      }
    }
  }

  function Verbatim(pattern: string): string {
    if pattern == [] then [] else [if pattern[0] == '_' then 'a' else pattern[0]] + Verbatim(pattern[1..])
  }

  lemma {:induction false} VerbatimMatches(pattern: string, caseless: bool)
    requires '%' !in pattern
    ensures LikeMatches(Verbatim(pattern), pattern, None, caseless)
  {
    if pattern != [] {
      VerbatimMatches(pattern[1..], caseless);
      assert Verbatim(pattern)[1..] == Verbatim(pattern[1..]);
    }
  }

  lemma VerbatimLost(pattern: string, c: char, caseless: bool)
    requires '%' !in pattern && Quoted(pattern, c) != []
    ensures LikeMatches(Verbatim(pattern), pattern, None, caseless)
    ensures !LikeMatches(Verbatim(pattern), pattern, Some(c), caseless)
  {
    var s := Verbatim(pattern);
    VerbatimMatches(pattern, caseless);
    FixedLength(s, pattern, None, caseless);
    if LikeMatches(s, pattern, Some(c), caseless) { FixedLength(s, pattern, Some(c), caseless); }
  }

  /** For a pattern without `%` the clause can be dropped from NOT LIKE exactly when it
      quotes nothing. */
  lemma FixedDropIff(pattern: string, c: char, caseless: bool)
    requires '%' !in pattern
    ensures Quoted(pattern, c) == [] <==>
      forall s: string :: LikeMatches(s, pattern, None, caseless) ==> LikeMatches(s, pattern, Some(c), caseless)
  {
    if Quoted(pattern, c) == [] {
      forall s: string | LikeMatches(s, pattern, None, caseless) ensures LikeMatches(s, pattern, Some(c), caseless) {
        IdleAgrees(s, pattern, c, caseless);
      }
    } else {
      VerbatimLost(pattern, c, caseless);
    }
  }
}
