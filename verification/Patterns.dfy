/**
 * What each scanner redacts, said on the text alone: the patterns with their character
 * classes, where they end, and that everything else is copied.
 */
module Patterns {
  import opened Text
  import opened Scanners
  import opened ScannerProofs

  // Character classes, by the ranges they list

  type Class = seq<(char, char)>

  predicate In(c: char, class_: Class) {
    exists i :: 0 <= i < |class_| && class_[i].0 <= c <= class_[i].1
  }

  const WORD: Class := [('a', 'z'), ('A', 'Z'), ('0', '9'), ('_', '_')]
  const BEARER: Class := WORD + [('.', '.'), ('~', '~'), ('+', '+'), ('/', '/'), ('-', '-')]
  const SLACK: Class := [('0', '9'), ('A', 'Z'), ('a', 'z'), ('-', '-')]
  const AWS: Class := [('0', '9'), ('A', 'Z')]
  const BLANK: Class := [(' ', ' '), ('\t', '\t'), ('\n', '\n'), ('\r', '\r')]
  const EQUALS: Class := [('=', '=')]
  const NO_PASSWORD: Class := [('/', '/'), ('@', '@'), (' ', ' '), ('\t', '\r')]
  const NO_USER: Class := NO_PASSWORD + [(':', ':')]
  const NO_VALUE: Class := BLANK + [('"', '"'), ('\'', '\''), (',', ','), ('}', '}')]

  /** The whole of `s[a..b]` is of the class, and it goes no further. */
  predicate Span(s: string, a: nat, b: nat, chars: Class) {
    a <= b <= |s| && (forall i :: a <= i < b ==> In(s[i], chars)) && (b < |s| ==> !In(s[b], chars))
  }

  /** No character of `s[a..b]` is of the class, and the next one is. */
  predicate SpanTo(s: string, a: nat, b: nat, chars: Class) {
    a <= b <= |s| && (forall i :: a <= i < b ==> !In(s[i], chars)) && (b < |s| ==> In(s[b], chars))
  }

  /** The text is the (lower-case) word, in capital or small letters. */
  predicate Reads(t: string, word: string) {
    |t| == |word| &&
    forall i :: 0 <= i < |t| ==> t[i] == word[i] || ('a' <= word[i] <= 'z' && t[i] as int + 32 == word[i] as int)
  }

  // The patterns; each ends at `e`

  predicate ReadsPlaceholder(t: string) {
    Reads(t, "null") || Reads(t, "undefined")
  }

  predicate ReadsBearer(s: string) {
    6 <= |s| && Reads(s[..6], "bearer")
  }

  /** The word "bearer", blanks up to `p`, a token up to `q` that is no placeholder, and equals signs. */
  predicate BearerAt(s: string, p: nat, q: nat, e: nat) {
    && ReadsBearer(s) && 6 < p && Span(s, 6, p, BLANK) && Span(s, p, q, BEARER) && Span(s, q, e, EQUALS) && p < e
    && !ReadsPlaceholder(s[p..q])
  }

  /** A fixed head and all the word characters after it, at least so many. */
  predicate WordTokenAt(head: string, least: nat, s: string, e: nat) {
    head <= s && Span(s, |head|, e, WORD) && least <= e - |head|
  }

  /** A fixed head and exactly so many characters of a class. */
  predicate FixedTokenAt(head: string, count: nat, chars: Class, s: string, e: nat) {
    head <= s && e == |head| + count <= |s| && forall i :: |head| <= i < e ==> In(s[i], chars)
  }

  predicate SlackAt(s: string, e: nat) {
    && 5 <= |s| && s[..3] == "xox" && s[3] in "baprs" && s[4] == '-'
    && Span(s, 5, e, SLACK) && 5 < e
  }

  /** A scheme up to `h`, a user up to the colon at `c`, and a password up to the '@' at `e - 1`. */
  predicate UrlAt(s: string, h: nat, c: nat, e: nat) {
    && ((h == 8 && "https://" <= s) || (h == 7 && "http://" <= s))
    && SpanTo(s, h, c, NO_USER) && h < c < |s| && s[c] == ':'
    && 0 < e && SpanTo(s, c + 1, e - 1, NO_PASSWORD) && c + 1 < e - 1 < |s| && s[e - 1] == '@'
  }

  const KEY_NAMES: seq<string> :=
    ["api_key", "api-key", "apikey", "authorization", "password", "secret", "token"]

  /** Where the value starts: one blank and one quote are skipped after the separator at `sep`. */
  function ValueAt(s: string, sep: nat): nat
    requires sep < |s|
  {
    var a := if sep + 1 < |s| && In(s[sep + 1], BLANK) then sep + 2 else sep + 1;
    if a < |s| && (s[a] == '"' || s[a] == '\'') then a + 1 else a
  }

  /** A key, in any case, a separator, one blank and one quote if they are there, and a value from `v` on. */
  predicate AssignmentAt(s: string, key: string, v: nat, e: nat) {
    && key in KEY_NAMES && |key| < |s| && Reads(s[..|key|], key)
    && (s[|key|] == ':' || s[|key|] == '=')
    && v == ValueAt(s, |key|) && SpanTo(s, v, e, NO_VALUE) && v < e
  }

  /** Scanner `k` finds its pattern at the start of the text: it keeps `kept` characters, and ends at `e`. */
  ghost predicate Matches(k: Scanner, s: string, kept: nat, e: nat) {
    match k
    case Bearer => kept == 0 && exists p, q :: BearerAt(s, p, q, e)
    case Linear => kept == 0 && WordTokenAt("lin_api_", 1, s, e)
    case Sk => kept == 0 && WordTokenAt("sk-", 20, s, e)
    case Slack => kept == 0 && SlackAt(s, e)
    case Aws => kept == 0 && FixedTokenAt("AKIA", 16, AWS, s, e)
    case GitHub => kept == 0 && FixedTokenAt("ghp_", 36, WORD, s, e)
    case CredentialUrl => exists c :: UrlAt(s, kept, c, e)
    case Assignment => exists key :: AssignmentAt(s, key, kept, e)
  }

  // The classes are those of the scanners

  lemma Joined(c: char, a: Class, b: Class)
    ensures In(c, a + b) <==> In(c, a) || In(c, b)
  {
    if In(c, a) {
      var i :| 0 <= i < |a| && a[i].0 <= c <= a[i].1;
      assert (a + b)[i] == a[i];
    }
    if In(c, b) {
      var i :| 0 <= i < |b| && b[i].0 <= c <= b[i].1;
      assert (a + b)[|a| + i] == b[i];
    }
  }

  lemma WordClass(c: char)
    ensures In(c, WORD) <==> IsWord(c)
  {
    assert WORD[0] == ('a', 'z') && WORD[1] == ('A', 'Z') && WORD[2] == ('0', '9') && WORD[3] == ('_', '_');
  }

  lemma BearerClass(c: char)
    ensures In(c, BEARER) <==> IsBearerChar(c)
  {
    var more: Class := [('.', '.'), ('~', '~'), ('+', '+'), ('/', '/'), ('-', '-')];
    Joined(c, WORD, more);
    WordClass(c);
    hide IsWord;
    assert more[0] == ('.', '.') && more[1] == ('~', '~') && more[2] == ('+', '+') && more[3] == ('/', '/')
        && more[4] == ('-', '-');
  }

  lemma SmallClasses(c: char)
    ensures In(c, SLACK) <==> IsSlackChar(c)
    ensures In(c, AWS) <==> IsAwsChar(c)
    ensures In(c, BLANK) <==> IsBlank(c)
    ensures In(c, EQUALS) <==> IsEquals(c)
  {
    assert SLACK[0] == ('0', '9') && SLACK[1] == ('A', 'Z') && SLACK[2] == ('a', 'z') && SLACK[3] == ('-', '-');
    assert AWS[0] == ('0', '9') && AWS[1] == ('A', 'Z');
    assert BLANK[0] == (' ', ' ') && BLANK[1] == ('\t', '\t') && BLANK[2] == ('\n', '\n') && BLANK[3] == ('\r', '\r');
    assert EQUALS[0] == ('=', '=');
  }

  lemma StopClasses(c: char)
    ensures In(c, NO_PASSWORD) <==> !IsPasswordChar(c)
    ensures In(c, NO_USER) <==> !IsUserChar(c)
    ensures In(c, NO_VALUE) <==> !IsValueChar(c)
  {
    assert NO_PASSWORD[0] == ('/', '/') && NO_PASSWORD[1] == ('@', '@') && NO_PASSWORD[2] == (' ', ' ')
        && NO_PASSWORD[3] == ('\t', '\r');
    assert [(':', ':')][0] == (':', ':');
    Joined(c, NO_PASSWORD, [(':', ':')]);
    var more: Class := [('"', '"'), ('\'', '\''), (',', ','), ('}', '}')];
    assert more[0] == ('"', '"') && more[1] == ('\'', '\'') && more[2] == (',', ',') && more[3] == ('}', '}');
    Joined(c, BLANK, more);
    SmallClasses(c);
  }

  // Spans are runs

  lemma SpanIsRun(s: string, a: nat, b: nat, chars: Class, p: char -> bool)
    requires a <= |s| && forall c :: In(c, chars) <==> p(c)
    ensures Span(s, a, b, chars) <==> b == a + Run(p, s[a..])
  {
    var e := RunFacts(p, s, a);
    hide In;
    if Span(s, a, b, chars) {
      RunFrom(p, s, a, b);
    }
  }

  lemma SpanToIsRun(s: string, a: nat, b: nat, chars: Class, p: char -> bool)
    requires a <= |s| && forall c :: In(c, chars) <==> !p(c)
    ensures SpanTo(s, a, b, chars) <==> b == a + Run(p, s[a..])
  {
    var e := RunFacts(p, s, a);
    hide In;
    if SpanTo(s, a, b, chars) {
      RunFrom(p, s, a, b);
    }
  }

  // The patterns are what the scanners react to

  lemma WordTokenIs(head: string, least: nat, s: string, e: nat)
    ensures WordTokenAt(head, least, s, e) <==>
            head <= s && least <= Run(IsWord, s[|head|..]) && e == |head| + Run(IsWord, s[|head|..])
  {
    if head <= s {
      forall c ensures In(c, WORD) <==> IsWord(c) { WordClass(c); }
      SpanIsRun(s, |head|, e, WORD, IsWord);
    }
  }

  lemma FixedTokenIs(head: string, count: nat, chars: Class, p: char -> bool, s: string, e: nat)
    requires forall c :: In(c, chars) <==> p(c)
    ensures FixedTokenAt(head, count, chars, s, e) <==>
            head <= s && count <= Run(p, s[|head|..]) && e == |head| + count
  {
    if head <= s {
      RunAtLeast(p, s[|head|..], count);
      hide In, Run;
      if |head| + count <= |s| {
        var part := s[|head|..][..count];
        assert forall i :: 0 <= i < count ==> part[i] == s[|head| + i];
        assert (forall i :: |head| <= i < |head| + count ==> p(s[i])) <==> All(p, part) by {
          if All(p, part) {
            forall i | |head| <= i < |head| + count ensures p(s[i]) { assert part[i - |head|] == s[i]; }
          }
        }
      }
    }
  }

  lemma SlackIs(s: string, e: nat)
    ensures SlackAt(s, e) <==> Probe(Slack, s) == TokenHit(e)
  {
    forall c ensures In(c, SLACK) <==> IsSlackChar(c) { SmallClasses(c); }
    if 5 <= |s| {
      SpanIsRun(s, 5, e, SLACK, IsSlackChar);
      assert s[..3] == "xox" <==> "xox" <= s;
    }
  }

  predicate NoCapitals(word: string) {
    forall i :: 0 <= i < |word| ==> !('A' <= word[i] <= 'Z')
  }

  lemma ReadsIsLower(t: string, word: string)
    requires NoCapitals(word)
    ensures Reads(t, word) <==> Lower(t) == word
  {
    if Lower(t) == word {
      assert forall i :: 0 <= i < |t| ==> Lower(t)[i] == word[i];
    }
  }

  lemma LowerOfSlice(s: string, a: nat, b: nat)
    requires a <= b <= |s|
    ensures Lower(s[a..b]) == Lower(s)[a..b]
  {
  }

  lemma BearerWordIs(s: string)
    ensures ReadsBearer(s) <==> "bearer" <= Lower(s)
  {
    if 6 <= |s| {
      ReadsIsLower(s[..6], "bearer");
      LowerOfSlice(s, 0, 6);
      hide Reads, Lower;
      assert Lower(s)[..6] == Lower(s)[0..6];
    }
  }

  lemma PlaceholderIs(s: string, p: nat, q: nat)
    requires p <= q <= |s|
    ensures ReadsPlaceholder(s[p..q]) <==> IsPlaceholder(Lower(s)[p..q])
  {
    ReadsIsLower(s[p..q], "null");
    ReadsIsLower(s[p..q], "undefined");
    LowerOfSlice(s, p, q);
  }

  lemma BearerIs(s: string, p: nat, q: nat, e: nat)
    requires BearerAt(s, p, q, e)
    ensures ProbeBearer(s) == TokenHit(e)
  {
    hide Run, ReadsPlaceholder, IsPlaceholder, Lower, Reads;
    assert 6 <= |s| && p <= |s| && q <= |s|;
    hide Span, ReadsBearer;
    BearerSpans(s, p, q, e);
    BearerWordIs(s);
    PlaceholderIs(s, p, q);
  }

  lemma BearerSpans(s: string, p: nat, q: nat, e: nat)
    requires 6 <= |s|
    ensures Span(s, 6, p, BLANK) <==> p == 6 + Run(IsBlank, s[6..])
    ensures p <= |s| ==> (Span(s, p, q, BEARER) <==> q == p + Run(IsBearerChar, s[p..]))
    ensures q <= |s| ==> (Span(s, q, e, EQUALS) <==> e == q + Run(IsEquals, s[q..]))
  {
    hide In, Span;
    forall c ensures In(c, BLANK) <==> IsBlank(c) { SmallClasses(c); }
    forall c ensures In(c, BEARER) <==> IsBearerChar(c) { BearerClass(c); }
    forall c ensures In(c, EQUALS) <==> IsEquals(c) { SmallClasses(c); }
    SpanIsRun(s, 6, p, BLANK, IsBlank);
    if p <= |s| { SpanIsRun(s, p, q, BEARER, IsBearerChar); }
    if q <= |s| { SpanIsRun(s, q, e, EQUALS, IsEquals); }
  }

  lemma BearerHas(s: string) returns (p: nat, q: nat)
    requires ProbeBearer(s).Hit?
    ensures BearerAt(s, p, q, ProbeBearer(s).end)
  {
    hide Span, Run, ReadsBearer, ReadsPlaceholder, IsPlaceholder, Lower;
    BearerWordIs(s);
    p := 6 + Run(IsBlank, s[6..]);
    q := p + Run(IsBearerChar, s[p..]);
    BearerSpans(s, p, q, ProbeBearer(s).end);
    PlaceholderIs(s, p, q);
  }

  lemma UrlIs(s: string, h: nat, c: nat, e: nat)
    ensures UrlAt(s, h, c, e) ==> ProbeUrl(s) == Hit(h, e - 1, e)
    ensures ProbeUrl(s).Hit? && h == SchemeLength(s) && c == h + Run(IsUserChar, s[h..]) && e == ProbeUrl(s).end
            ==> UrlAt(s, h, c, e) && ProbeUrl(s).cut == e - 1
  {
    hide In, SpanTo, Run;
    SchemeIs(s);
    forall x ensures In(x, NO_USER) <==> !IsUserChar(x) { StopClasses(x); }
    forall x ensures In(x, NO_PASSWORD) <==> !IsPasswordChar(x) { StopClasses(x); }
    hide SchemeLength, IsUserChar, IsPasswordChar;
    if h <= |s| { SpanToIsRun(s, h, c, NO_USER, IsUserChar); }
    if c < |s| && 0 < e { SpanToIsRun(s, c + 1, e - 1, NO_PASSWORD, IsPasswordChar); }
  }

  lemma SchemeIs(s: string)
    ensures SchemeLength(s) == 8 <==> "https://" <= s
    ensures SchemeLength(s) == 7 <==> "http://" <= s
    ensures SchemeLength(s) == 0 || SchemeLength(s) == 7 || SchemeLength(s) == 8
    ensures SchemeLength(s) <= |s|
  {
    if "https://" <= s { assert s[4] == 's'; }
    if "http://" <= s { assert s[4] == ':'; }
  }

  lemma KeyNames()
    ensures KEY_NAMES == KEYS
  {
  }

  lemma AssignmentSpan(s: string, v: nat, e: nat)
    requires v <= |s|
    ensures SpanTo(s, v, e, NO_VALUE) <==> e == v + Run(IsValueChar, s[v..])
  {
    forall c ensures In(c, NO_VALUE) <==> !IsValueChar(c) { StopClasses(c); }
    SpanToIsRun(s, v, e, NO_VALUE, IsValueChar);
  }

  lemma KeyReads(s: string, key: string)
    requires IsKey(key) && |key| <= |s|
    ensures Reads(s[..|key|], key) <==> forall i :: 0 <= i < |key| ==> LowerChar(s[i]) == key[i]
  {
    KeyNoCapitals(key);
    ReadsIsLower(s[..|key|], key);
    hide Reads, IsKey;
    var t := s[..|key|];
    if forall i :: 0 <= i < |key| ==> LowerChar(s[i]) == key[i] {
      assert Lower(t) == key;
    }
    if Lower(t) == key {
      assert forall i :: 0 <= i < |key| ==> LowerChar(s[i]) == Lower(t)[i];
    }
  }

  lemma KeyNoCapitals(key: string)
    requires IsKey(key)
    ensures NoCapitals(key)
  {
  }

  lemma ValueIs(s: string, sep: nat)
    requires sep < |s|
    ensures ValueAt(s, sep) == ValueStart(s, sep)
  {
    if sep + 1 < |s| { SmallClasses(s[sep + 1]); }
  }

  lemma AssignmentIs(s: string, key: string, v: nat, e: nat)
    requires AssignmentAt(s, key, v, e)
    ensures ProbeAssignment(s) == Hit(v, e, e)
  {
    KeyNames();
    assert IsKey(key);
    hide Reads, SpanTo, IsKey, Run, ProbeAssignment, ValueStart;
    KeyReads(s, key);
    KeyShapeProbe(s, key);
    ValueIs(s, |key|);
    AssignmentSpan(s, v, e);
  }

  lemma AssignmentHas(s: string) returns (key: string)
    requires ProbeAssignment(s).Hit?
    ensures var h := ProbeAssignment(s); AssignmentAt(s, key, h.kept, h.end) && h.cut == h.end
  {
    key := HitHasKeyShape(s);
    KeyShapeProbe(s, key);
    KeyNames();
    assert key in KEY_NAMES && IsKey(key);
    hide Reads, SpanTo, IsKey, Run, ProbeAssignment, ValueStart, ValueAt, KeyAt, Lower;
    KeyReads(s, key);
    ValueIs(s, |key|);
    AssignmentSpan(s, ValueAt(s, |key|), ProbeAssignment(s).end);
  }

  // The theorem

  /** What is copied after the marker: the '@' of a credential URL. */
  function Tail(k: Scanner): string {
    if k == CredentialUrl then "@" else ""
  }

  lemma MatchesHit(k: Scanner, s: string, kept: nat, e: nat)
    requires Matches(k, s, kept, e)
    ensures var h := Probe(k, s); h.Hit? && h.kept == kept && h.end == e && s[h.cut..h.end] == Tail(k)
  {
    hide BearerAt, WordTokenAt, FixedTokenAt, SlackAt, UrlAt, AssignmentAt, ProbeBearer, ProbeUrl, ProbeAssignment, Run;
    match k {
      case Bearer => var p, q :| BearerAt(s, p, q, e); BearerIs(s, p, q, e);
      case Linear => WordTokenIs("lin_api_", 1, s, e);
      case Sk => WordTokenIs("sk-", 20, s, e);
      case Slack => SlackIs(s, e);
      case Aws => AwsIs(s, e);
      case GitHub => GitHubIs(s, e);
      case CredentialUrl =>
        var c :| UrlAt(s, kept, c, e);
        UrlIs(s, kept, c, e);
        UrlAts(s, kept, c, e);
      case Assignment => var key :| AssignmentAt(s, key, kept, e); AssignmentIs(s, key, kept, e);
    }
  }

  lemma UrlAts(s: string, h: nat, c: nat, e: nat)
    requires UrlAt(s, h, c, e)
    ensures 0 < e <= |s| && s[e - 1..e] == "@"
  {
  }

  lemma AwsIs(s: string, e: nat)
    ensures FixedTokenAt("AKIA", 16, AWS, s, e) <==> "AKIA" <= s && 16 <= Run(IsAwsChar, s[4..]) && e == 20
  {
    forall c ensures In(c, AWS) <==> IsAwsChar(c) { SmallClasses(c); }
    FixedTokenIs("AKIA", 16, AWS, IsAwsChar, s, e);
  }

  lemma GitHubIs(s: string, e: nat)
    ensures FixedTokenAt("ghp_", 36, WORD, s, e) <==> "ghp_" <= s && 36 <= Run(IsWord, s[4..]) && e == 40
  {
    forall c ensures In(c, WORD) <==> IsWord(c) { WordClass(c); }
    FixedTokenIs("ghp_", 36, WORD, IsWord, s, e);
  }

  lemma HitMatches(k: Scanner, s: string)
    requires Probe(k, s).Hit?
    ensures Matches(k, s, Probe(k, s).kept, Probe(k, s).end)
  {
    hide BearerAt, WordTokenAt, FixedTokenAt, SlackAt, UrlAt, AssignmentAt, ProbeBearer, ProbeUrl, ProbeAssignment, Run;
    var e := Probe(k, s).end;
    match k {
      case Bearer => BearerHitKeepsNothing(s); var p, q := BearerHas(s);
      case Linear => WordTokenIs("lin_api_", 1, s, e);
      case Sk => WordTokenIs("sk-", 20, s, e);
      case Slack => SlackIs(s, e);
      case Aws => AwsIs(s, e);
      case GitHub => GitHubIs(s, e);
      case CredentialUrl => UrlHas(s);
      case Assignment => var key := AssignmentHas(s);
    }
  }

  lemma BearerHitKeepsNothing(s: string)
    requires ProbeBearer(s).Hit?
    ensures ProbeBearer(s).kept == 0
  {
  }

  lemma UrlHas(s: string)
    requires ProbeUrl(s).Hit?
    ensures exists c :: UrlAt(s, ProbeUrl(s).kept, c, ProbeUrl(s).end)
  {
    UrlHitShape(s);
    var h := SchemeLength(s);
    var c := h + Run(IsUserChar, s[h..]);
    UrlIs(s, h, c, ProbeUrl(s).end);
    hide ProbeUrl, UrlAt;
    assert UrlAt(s, ProbeUrl(s).kept, c, ProbeUrl(s).end);
  }

  /** Where its pattern stands, a scanner writes the marker for all of it but what it keeps, and goes on behind it. */
  lemma Redacts(k: Scanner, s: string, kept: nat, e: nat)
    requires Matches(k, s, kept, e)
    ensures kept < e <= |s|
    ensures Scan(k, s) == s[..kept] + "[REDACTED]" + Tail(k) + Scan(k, s[e..])
  {
    hide Matches, Probe;
    MatchesHit(k, s, kept, e);
    ScanAtHit(k, s);
  }

  /** Where it does not stand, one character is copied. */
  lemma Copies(k: Scanner, s: string)
    requires s != "" && forall kept, e :: !Matches(k, s, kept, e)
    ensures Scan(k, s) == [s[0]] + Scan(k, s[1..])
  {
    hide Matches, Probe;
    if Probe(k, s).Hit? { HitMatches(k, s); }
    ScanAtMiss(k, s);
  }

  /** A pattern ends in one place, and an empty text has none: the two lemmas above say all of a scan. */
  lemma MatchesOnce(k: Scanner, s: string, kept: nat, e: nat, kept': nat, e': nat)
    requires Matches(k, s, kept, e) && Matches(k, s, kept', e')
    ensures kept == kept' && e == e' && s != ""
  {
    hide Matches, Probe;
    MatchesHit(k, s, kept, e);
    MatchesHit(k, s, kept', e');
  }
}
