/** Query fingerprints: a scanner that erases literals, then normalised white space. */
module Fingerprint {
  const QUOTE: char := '\''

  predicate IsDigit(c: char) { '0' <= c <= '9' }

  predicate IsWord(c: char) { IsDigit(c) || 'a' <= c <= 'z' || 'A' <= c <= 'Z' || c == '_' }

  /** The Unicode White_Space property. */
  predicate IsSpace(c: char) {
    || '\U{0009}' <= c <= '\U{000D}' || c == ' ' || c == '\U{0085}' || c == '\U{00A0}' || c == '\U{1680}'
    || '\U{2000}' <= c <= '\U{200A}' || c == '\U{2028}' || c == '\U{2029}' || c == '\U{202F}'
    || c == '\U{205F}' || c == '\U{3000}'
  }

  predicate EndsInWord(s: string) { s != "" && IsWord(s[|s| - 1]) }

  // ---- The scanner, one character at a time ---------------------------------

  /** Outside literals; inside a quoted one; after a quote in it, which may close or escape;
      inside a number. */
  datatype Mode = Normal | InString | QuoteSeen | InNumber

  datatype Scan = Scan(mode: Mode, out: string)

  const START: Scan := Scan(Normal, "")

  function FeedNormal(out: string, c: char): Scan {
    if c == QUOTE then Scan(InString, out + "?")
    else if IsDigit(c) && !EndsInWord(out) then Scan(InNumber, out + "?")
    else Scan(Normal, out + [c])
  }

  function Feed(s: Scan, c: char): Scan {
    match s.mode
    case InString => if c == QUOTE then s.(mode := QuoteSeen) else s
    case QuoteSeen => if c == QUOTE then s.(mode := InString) else FeedNormal(s.out, c)
    case InNumber => if IsDigit(c) || c == '.' then s else FeedNormal(s.out, c)
    case Normal => FeedNormal(s.out, c)
  }

  function FeedAll(s: Scan, text: string): Scan {
    if text == "" then s else Feed(FeedAll(s, text[..|text| - 1]), text[|text| - 1])
  }

  /** The next character, if any, is taken as one outside a literal. */
  predicate Resumes(s: Scan, query: string, i: nat)
    requires i <= |query|
  {
    i < |query| ==> Feed(s, query[i]) == FeedNormal(s.out, query[i])
  }

  /** The scanner as a loop with look-ahead, which skips a literal as soon as it starts. */
  method EraseLiterals(query: string) returns (result: string)
    ensures result == FeedAll(START, query).out
  {
    result := "";
    var i := 0;
    while i < |query|
      invariant i <= |query| && FeedAll(START, query[..i]).out == result
      invariant Resumes(FeedAll(START, query[..i]), query, i)
    {
      var c := query[i];
      FedOne(query, i);
      i := i + 1;
      if c == QUOTE {
        result := result + "?";
        i := SkipString(query, i);
      } else if IsDigit(c) && !EndsInWord(result) {
        result := result + "?";
        i := SkipNumber(query, i);
      } else {
        result := result + [c];
      }
    }
    assert query[..|query|] == query;
  }

  method SkipString(query: string, from: nat) returns (i: nat)
    requires from <= |query| && FeedAll(START, query[..from]).mode.InString?
    ensures from <= i <= |query| && FeedAll(START, query[..i]).out == FeedAll(START, query[..from]).out
    ensures Resumes(FeedAll(START, query[..i]), query, i)
  {
    i := from;
    while i < |query|
      invariant from <= i <= |query|
      invariant FeedAll(START, query[..i]) == FeedAll(START, query[..from])
    {
      var inner := query[i];
      FedOne(query, i);
      i := i + 1;
      if inner == QUOTE {
        if i < |query| && query[i] == QUOTE {
          FedOne(query, i);
          i := i + 1;
        } else {
          break;
        }
      }
    }
  }

  method SkipNumber(query: string, from: nat) returns (i: nat)
    requires from <= |query| && FeedAll(START, query[..from]).mode.InNumber?
    ensures from <= i <= |query| && FeedAll(START, query[..i]).out == FeedAll(START, query[..from]).out
    ensures Resumes(FeedAll(START, query[..i]), query, i)
  {
    i := from;
    while i < |query| && (IsDigit(query[i]) || query[i] == '.')
      invariant from <= i <= |query|
      invariant FeedAll(START, query[..i]) == FeedAll(START, query[..from])
    {
      FedOne(query, i);
      i := i + 1;
    }
  }

  lemma FedOne(query: string, i: nat)
    requires i < |query|
    ensures FeedAll(START, query[..i + 1]) == Feed(FeedAll(START, query[..i]), query[i])
  {
    assert query[..i + 1][..i] == query[..i];
  }

  lemma {:induction false} FeedAppend(s: Scan, a: string, b: string)
    ensures FeedAll(s, a + b) == FeedAll(FeedAll(s, a), b)
  {
    if b == "" {
      assert a + b == a;
    } else {
      FeedAppend(s, a, b[..|b| - 1]);
      assert (a + b)[..|a + b| - 1] == a + b[..|b| - 1];
    }
  }

  // ---- White space ----------------------------------------------------------

  /** `split_whitespace` */
  function Words(s: string): (words: seq<string>)
    ensures s != "" && !IsSpace(s[|s| - 1]) ==> words != []
  {
    if s == "" then []
    else
      var front, last := s[..|s| - 1], s[|s| - 1];
      var words := Words(front);
      if IsSpace(last) then words
      else if front == "" || IsSpace(front[|front| - 1]) then words + [[last]]
      else words[..|words| - 1] + [words[|words| - 1] + [last]]
  }

  /** `join(" ")` */
  function Spaced(words: seq<string>): string {
    if words == [] then ""
    else if |words| == 1 then words[0]
    else Spaced(words[..|words| - 1]) + " " + words[|words| - 1]
  }

  function Normalize(s: string): string { Spaced(Words(s)) }

  function Fingerprint(query: string): string { Normalize(FeedAll(START, query).out) }

  method ComputeFingerprint(query: string) returns (r: string)
    ensures r == Fingerprint(query)
  {
    var result := EraseLiterals(query);
    r := Spaced(Words(result));
  }

  predicate EndsInSpace(s: string) { s != "" && IsSpace(s[|s| - 1]) }

  /** Normalising one more character. */
  lemma NormalizeSnoc(s: string, c: char)
    ensures
      Normalize(s + [c]) ==
      if IsSpace(c) then Normalize(s)
      else if s != "" && !EndsInSpace(s) then Normalize(s) + [c]
      else if Words(s) == [] then [c]
      else Normalize(s) + " " + [c]
  {
    assert (s + [c])[..|s + [c]| - 1] == s;
    var words := Words(s);
    if !IsSpace(c) {
      if s != "" && !EndsInSpace(s) {
        var grown := words[..|words| - 1] + [words[|words| - 1] + [c]];
        assert grown[..|grown| - 1] == words[..|words| - 1];
        SpacedLast(words, c);
      } else {
        assert (words + [[c]])[..|words|] == words;
      }
    }
  }

  lemma SpacedLast(words: seq<string>, c: char)
    requires words != []
    ensures Spaced(words[..|words| - 1] + [words[|words| - 1] + [c]]) == Spaced(words) + [c]
  {
    var front, last := words[..|words| - 1], words[|words| - 1];
    var grown := front + [last + [c]];
    assert grown[..|grown| - 1] == front;
    if |words| > 1 { AppendInto(Spaced(front) + " ", last, c); }
  }

  lemma AppendInto(a: string, b: string, c: char)
    ensures a + (b + [c]) == (a + b) + [c]
  {}

  /** Normalised text ends as the text does, and is empty exactly when there is no word. */
  lemma {:induction false} NormalizeEnd(s: string)
    ensures Normalize(s) == "" <==> Words(s) == []
    ensures Normalize(s) != "" ==> !EndsInSpace(Normalize(s))
    ensures s != "" && !EndsInSpace(s) ==> Normalize(s) != "" && Normalize(s)[|Normalize(s)| - 1] == s[|s| - 1]
  {
    if s != "" {
      var front, last := s[..|s| - 1], s[|s| - 1];
      assert s == front + [last];
      NormalizeEnd(front);
      NormalizeSnoc(front, last);
    }
  }

  lemma {:induction false} NormalizeIdempotent(s: string)
    ensures Normalize(Normalize(s)) == Normalize(s)
  {
    if s != "" {
      var front, last := s[..|s| - 1], s[|s| - 1];
      assert s == front + [last];
      NormalizeIdempotent(front);
      NormalizeSnoc(front, last);
      NormalizeEnd(front);
      NormalizeEnd(Normalize(front));
      if !IsSpace(last) {
        var n := Normalize(front);
        if front != "" && !EndsInSpace(front) {
          NormalizeSnoc(n, last);
        } else if Words(front) == [] {
          NormalizeSnoc("", last);
          assert "" + [last] == [last];
        } else {
          NormalizeSnoc(n, ' ');
          NormalizeSnoc(n + " ", last);
          assert (n + " ")[..|n|] == n;
        }
      }
    }
  }

  // ---- Idempotence ----------------------------------------------------------

  /** No quote is left, and every digit left continues a word. */
  predicate Clean(s: string) {
    forall i :: 0 <= i < |s| ==> CleanAt(s, i)
  }

  predicate CleanAt(s: string, i: nat)
    requires i < |s|
  {
    s[i] != QUOTE && (IsDigit(s[i]) ==> i > 0 && IsWord(s[i - 1]))
  }

  lemma CleanSnoc(s: string, c: char)
    ensures Clean(s + [c]) <==> Clean(s) && c != QUOTE && (IsDigit(c) ==> EndsInWord(s))
  {
    var t := s + [c];
    if Clean(t) {
      forall i | 0 <= i < |s| ensures CleanAt(s, i) { assert CleanAt(t, i); }
      assert CleanAt(t, |s|);
    }
    if Clean(s) && c != QUOTE && (IsDigit(c) ==> EndsInWord(s)) {
      forall i | 0 <= i < |t| ensures CleanAt(t, i) {
        if i < |s| { assert CleanAt(s, i); }
      }
    }
  }

  lemma {:induction false} ErasedIsClean(query: string)
    ensures Clean(FeedAll(START, query).out)
    ensures FeedAll(START, query).mode.QuoteSeen? || FeedAll(START, query).mode.InString? ==>
      !EndsInWord(FeedAll(START, query).out)
  {
    if query != "" {
      var before := FeedAll(START, query[..|query| - 1]).out;
      ErasedIsClean(query[..|query| - 1]);
      CleanSnoc(before, query[|query| - 1]);
      CleanSnoc(before, '?');
    }
  }

  lemma {:induction false} CleanIsKept(s: string)
    requires Clean(s)
    ensures FeedAll(START, s) == Scan(Normal, s)
  {
    if s != "" {
      var front := s[..|s| - 1];
      assert s == front + [s[|s| - 1]];
      CleanSnoc(front, s[|s| - 1]);
      CleanIsKept(front);
    }
  }

  lemma {:induction false} NormalizeClean(s: string)
    requires Clean(s)
    ensures Clean(Normalize(s))
  {
    if s != "" {
      var front, last := s[..|s| - 1], s[|s| - 1];
      assert s == front + [last];
      CleanSnoc(front, last);
      NormalizeClean(front);
      NormalizeSnoc(front, last);
      NormalizeEnd(front);
      var n := Normalize(front);
      CleanSnoc(n, last);
      CleanSnoc(n, ' ');
      CleanSnoc(n + " ", last);
      CleanSnoc("", last);
    }
  }

  /** Fingerprinting a fingerprint changes nothing. */
  lemma FingerprintIdempotent(query: string)
    ensures Fingerprint(Fingerprint(query)) == Fingerprint(query)
  {
    var out := FeedAll(START, query).out;
    ErasedIsClean(query);
    NormalizeClean(out);
    CleanIsKept(Normalize(out));
    NormalizeIdempotent(out);
  }

  // ---- Blindness to literals ------------------------------------------------

  /** A literal's text with its quotes doubled. */
  function Escaped(body: string): string {
    if body == "" then ""
    else
      var last := body[|body| - 1];
      Escaped(body[..|body| - 1]) + if last == QUOTE then [QUOTE, QUOTE] else [last]
  }

  function Quoted(body: string): string { [QUOTE] + Escaped(body) + [QUOTE] }

  lemma {:induction false} EscapedSkipped(out: string, body: string)
    ensures FeedAll(Scan(InString, out), Escaped(body)) == Scan(InString, out)
  {
    if body != "" {
      var front, last := body[..|body| - 1], body[|body| - 1];
      var s := Scan(InString, out);
      EscapedSkipped(out, front);
      if last == QUOTE {
        FeedAppend(s, Escaped(front), [QUOTE, QUOTE]);
        FeedTwo(s, QUOTE, QUOTE);
      } else {
        FeedAppend(s, Escaped(front), [last]);
        FeedOneChar(s, last);
      }
    }
  }

  lemma FeedOneChar(s: Scan, c: char)
    ensures FeedAll(s, [c]) == Feed(s, c)
  {
    assert [c][..0] == [];
  }

  lemma FeedTwo(s: Scan, c: char, d: char)
    ensures FeedAll(s, [c, d]) == Feed(Feed(s, c), d)
  {
    assert [c, d][..1] == [c];
    FeedOneChar(s, c);
  }

  /** A quoted literal met outside a string leaves the same trace whatever its text. */
  lemma QuotedTrace(s: Scan, body: string)
    requires !s.mode.InString?
    ensures FeedAll(s, Quoted(body)) == Scan(QuoteSeen, if s.mode.QuoteSeen? then s.out else s.out + "?")
  {
    var inside := Feed(s, QUOTE);
    FeedAppend(s, [QUOTE], Escaped(body));
    FeedOneChar(s, QUOTE);
    EscapedSkipped(inside.out, body);
    FeedAppend(s, [QUOTE] + Escaped(body), [QUOTE]);
    FeedOneChar(inside, QUOTE);
  }

  /** The fingerprint does not depend on the text of a literal at this point, whatever follows. */
  ghost predicate StringBlindAfter(prefix: string) {
    forall a, b, suffix ::
      Fingerprint(prefix + Quoted(a) + suffix) == Fingerprint(prefix + Quoted(b) + suffix)
  }

  lemma QuotedSwap(prefix: string, a: string, b: string, suffix: string)
    requires !FeedAll(START, prefix).mode.InString?
    ensures Fingerprint(prefix + Quoted(a) + suffix) == Fingerprint(prefix + Quoted(b) + suffix)
  {
    FeedAppend(START, prefix, Quoted(a));
    FeedAppend(START, prefix, Quoted(b));
    QuotedTrace(FeedAll(START, prefix), a);
    QuotedTrace(FeedAll(START, prefix), b);
    FeedAppend(START, prefix + Quoted(a), suffix);
    FeedAppend(START, prefix + Quoted(b), suffix);
  }

  /** After an opening quote a "literal" is really text between two of them, and shows. */
  lemma InsideStringShows(prefix: string, c: char)
    requires FeedAll(START, prefix).mode.InString? && 'a' <= c <= 'z'
    ensures
      Fingerprint(prefix + Quoted([c]) + "") == Normalize(FeedAll(START, prefix).out + [c] + "?")
  {
    var s := FeedAll(START, prefix);
    assert [c][..0] == [];
    assert Escaped([c]) == [c];
    assert Quoted([c]) == [QUOTE, c] + [QUOTE];
    FeedAppend(START, prefix, Quoted([c]));
    FeedAppend(s, [QUOTE, c], [QUOTE]);
    FeedTwo(s, QUOTE, c);
    FeedOneChar(Feed(Feed(s, QUOTE), c), QUOTE);
    assert prefix + Quoted([c]) + "" == prefix + Quoted([c]);
  }

  function QuoteCount(text: string): nat {
    if text == "" then 0
    else QuoteCount(text[..|text| - 1]) + if text[|text| - 1] == QUOTE then 1 else 0
  }

  /** Every quote opens or closes a string, or both: an odd number leaves one open. */
  lemma {:induction false} InStringIffOdd(prefix: string)
    ensures FeedAll(START, prefix).mode.InString? <==> QuoteCount(prefix) % 2 == 1
  {
    if prefix != "" { InStringIffOdd(prefix[..|prefix| - 1]); }
  }

  /** The text of a quoted literal is erased at a point of the query exactly when an even
      number of quotes comes before it. */
  lemma StringBlindIff(prefix: string)
    ensures StringBlindAfter(prefix) <==> QuoteCount(prefix) % 2 == 0
  {
    InStringIffOdd(prefix);
    if FeedAll(START, prefix).mode.InString? {
      var out := FeedAll(START, prefix).out;
      InsideStringShows(prefix, 'a');
      InsideStringShows(prefix, 'b');
      LastButOneShows(out, 'a', 'b');
    } else {
      forall a, b, suffix
        ensures Fingerprint(prefix + Quoted(a) + suffix) == Fingerprint(prefix + Quoted(b) + suffix)
      {
        QuotedSwap(prefix, a, b, suffix);
      }
    }
  }

  lemma LastShows(s: string, c: char, d: char)
    requires !IsSpace(c) && !IsSpace(d) && c != d
    ensures Normalize(s + [c]) != Normalize(s + [d])
  {
    NormalizeEnd(s + [c]);
    NormalizeEnd(s + [d]);
  }

  lemma LastButOneShows(s: string, c: char, d: char)
    requires !IsSpace(c) && !IsSpace(d) && c != d
    ensures Normalize(s + [c] + "?") != Normalize(s + [d] + "?")
  {
    LastShows(s, c, d);
    NormalizeSnoc(s + [c], '?');
    NormalizeSnoc(s + [d], '?');
    var m, n := Normalize(s + [c]), Normalize(s + [d]);
    assert (m + ['?'])[..|m|] == m && (n + ['?'])[..|n|] == n;
  }

  predicate Number(text: string) {
    text != "" && IsDigit(text[0]) && forall i :: 0 <= i < |text| ==> IsDigit(text[i]) || text[i] == '.'
  }

  lemma {:induction false} NumberSkipped(s: Scan, text: string)
    requires s.mode.InNumber? || s.mode.InString?
    requires forall i :: 0 <= i < |text| ==> IsDigit(text[i]) || text[i] == '.'
    ensures FeedAll(s, text) == s
  {
    if text != "" { NumberSkipped(s, text[..|text| - 1]); }
  }

  /** Whether a number at this point continues a word, such as `t1`. */
  predicate ContinuesWord(s: Scan) { s.mode.Normal? && EndsInWord(s.out) }

  lemma NumberTrace(s: Scan, text: string)
    requires Number(text) && !ContinuesWord(s) && (s.mode.QuoteSeen? ==> !EndsInWord(s.out))
    ensures FeedAll(s, text) == if s.mode.InNumber? || s.mode.InString? then s else Scan(InNumber, s.out + "?")
  {
    var rest := text[1..];
    assert text == [text[0]] + rest;
    FeedAppend(s, [text[0]], rest);
    FeedOneChar(s, text[0]);
    NumberSkipped(Feed(s, text[0]), rest);
  }

  ghost predicate NumberBlindAfter(prefix: string) {
    forall a, b, suffix :: Number(a) && Number(b) ==>
      Fingerprint(prefix + a + suffix) == Fingerprint(prefix + b + suffix)
  }

  lemma NumberSwap(prefix: string, a: string, b: string, suffix: string)
    requires Number(a) && Number(b) && !ContinuesWord(FeedAll(START, prefix))
    ensures Fingerprint(prefix + a + suffix) == Fingerprint(prefix + b + suffix)
  {
    ErasedIsClean(prefix);
    NumberTrace(FeedAll(START, prefix), a);
    NumberTrace(FeedAll(START, prefix), b);
    FeedAppend(START, prefix, a);
    FeedAppend(START, prefix, b);
    FeedAppend(START, prefix + a, suffix);
    FeedAppend(START, prefix + b, suffix);
  }

  /** The digits of a number are erased at a point of the query exactly when they do not
      continue a word. */
  lemma NumberBlindIff(prefix: string)
    ensures NumberBlindAfter(prefix) <==> !ContinuesWord(FeedAll(START, prefix))
  {
    if ContinuesWord(FeedAll(START, prefix)) {
      var s := FeedAll(START, prefix);
      FeedAppend(START, prefix, "1");
      FeedAppend(START, prefix, "2");
      FeedOneChar(s, '1');
      FeedOneChar(s, '2');
      LastShows(s.out, '1', '2');
      assert prefix + "1" + "" == prefix + "1" && prefix + "2" + "" == prefix + "2";
      assert Fingerprint(prefix + "1" + "") != Fingerprint(prefix + "2" + "");
      assert Number("1") && Number("2");
    } else {
      forall a, b, suffix | Number(a) && Number(b)
        ensures Fingerprint(prefix + a + suffix) == Fingerprint(prefix + b + suffix)
      {
        NumberSwap(prefix, a, b, suffix);
      }
    }
  }
}
