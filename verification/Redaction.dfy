/**
 * The scanners as the sanitizer runs them - loops that move an index and grow
 * the output - and what the pipeline of all eight guarantees.
 */
module Redaction {
  import opened Text
  import opened Scanners
  import opened ScannerProofs

  /** What the pipeline computes. */
  function RedactSpec(text: string): string {
    Scan(Assignment, Scan(CredentialUrl, TokensRedacted(text)))
  }

  function TokensRedacted(text: string): string {
    Scan(GitHub, Scan(Aws, Scan(Slack, Scan(Sk, Scan(Linear, Scan(Bearer, text))))))
  }

  // One step of a scanning loop

  lemma CopyStep(k: Scanner, text: string, i: nat, acc: string)
    requires i < |text| && Probe(k, text[i..]).NoHit?
    ensures acc + [text[i]] + Scan(k, text[i + 1..]) == acc + Scan(k, text[i..])
  {
    hide Probe;
    assert text[i..][0] == text[i] && text[i..][1..] == text[i + 1..];
  }

  lemma HitStep(k: Scanner, text: string, i: nat, acc: string, h: Hit)
    requires i < |text| && Probe(k, text[i..]) == h && h.Hit?
    ensures i + h.end <= |text|
    ensures acc + Replacement(h, text[i..]) + Scan(k, text[i + h.end..]) == acc + Scan(k, text[i..])
  {
    hide Probe;
    assert text[i..][h.end..] == text[i + h.end..];
  }

  /** The inner loops: move on while the character at `end` is in the class. */
  method SpanEnd(p: char -> bool, text: string, start: nat) returns (end: nat)
    requires start <= |text|
    ensures start <= end <= |text| && end == start + Run(p, text[start..])
  {
    end := start;
    while end < |text| && p(text[end])
      invariant start <= end <= |text|
      invariant forall i :: start <= i < end ==> p(text[i])
    {
      end := end + 1;
    }
    RunFrom(p, text, start, end);
  }

  /** The bounded inner loops: the same, for at most `limit` characters. */
  method SpanUpTo(p: char -> bool, text: string, start: nat, limit: nat) returns (end: nat, full: bool)
    requires start <= |text|
    ensures full <==> limit <= Run(p, text[start..])
    ensures full ==> end == start + limit
  {
    end := start;
    full := true;
    var offset := 0;
    var run := RunFacts(p, text, start);
    while offset < limit
      invariant 0 <= offset <= limit && end == start + offset <= |text|
      invariant full ==> offset <= run - start
      invariant forall i :: start <= i < end ==> p(text[i])
    {
      if end == |text| || !p(text[end]) {
        full := false;
        break;
      }
      end := end + 1;
      offset := offset + 1;
    }
  }

  // What each scanner reads from the current index on; `s` is the text from there

  method MatchBearer(s: string, lower: string) returns (h: Hit)
    requires lower == Lower(s)
    ensures h == ProbeBearer(s)
  {
    hide Lower, Run, IsPlaceholder;
    if !("bearer" <= lower) {
      return NoHit;
    }
    var tokenStart := SpanEnd(IsBlank, s, 6);
    if tokenStart == 6 {
      return NoHit;
    }
    var tokenEnd := SpanEnd(IsBearerChar, s, tokenStart);
    var token := lower[tokenStart..tokenEnd];
    if IsPlaceholder(token) {
      return NoHit;
    }
    tokenEnd := SpanEnd(IsEquals, s, tokenEnd);
    if tokenEnd == tokenStart {
      return NoHit;
    }
    return TokenHit(tokenEnd);
  }

  /** The two scanners that take every word character after a fixed head: `least` of them are needed. */
  method MatchWordToken(head: string, least: nat, s: string) returns (h: Hit)
    ensures h == if head <= s && least <= Run(IsWord, s[|head|..])
                 then TokenHit(|head| + Run(IsWord, s[|head|..])) else NoHit
  {
    if !(head <= s) {
      return NoHit;
    }
    var tokenEnd := SpanEnd(IsWord, s, |head|);
    if tokenEnd - |head| < least {
      return NoHit;
    }
    return TokenHit(tokenEnd);
  }

  /** The two scanners that take exactly `count` characters of one class after a fixed head. */
  method MatchFixedToken(head: string, p: char -> bool, count: nat, s: string) returns (h: Hit)
    ensures h == if head <= s && count <= Run(p, s[|head|..]) then TokenHit(|head| + count) else NoHit
  {
    if !(head <= s) {
      return NoHit;
    }
    var tokenEnd, full := SpanUpTo(p, s, |head|, count);
    if !full {
      return NoHit;
    }
    return TokenHit(tokenEnd);
  }

  method MatchSlack(s: string) returns (h: Hit)
    ensures h == Probe(Slack, s)
  {
    if !("xox" <= s) || |s| < 5 || s[3] !in "baprs" || s[4] != '-' {
      return NoHit;
    }
    var tokenEnd := SpanEnd(IsSlackChar, s, 5);
    if tokenEnd == 5 {
      return NoHit;
    }
    return TokenHit(tokenEnd);
  }

  method MatchCredentialUrl(s: string) returns (h: Hit)
    ensures h == ProbeUrl(s)
  {
    hide Run;
    var schemeEnd := SchemeLength(s);
    if schemeEnd == 0 {
      return NoHit;
    }
    var separatorIndex := SpanEnd(IsUserChar, s, schemeEnd);
    if separatorIndex == schemeEnd || separatorIndex == |s| || s[separatorIndex] != ':' {
      return NoHit;
    }
    var passwordStart := separatorIndex + 1;
    var atIndex := SpanEnd(IsPasswordChar, s, passwordStart);
    if atIndex == passwordStart || atIndex == |s| || s[atIndex] != '@' {
      return NoHit;
    }
    return Hit(schemeEnd, atIndex, atIndex + 1);
  }

  method MatchAssignment(s: string, lower: string) returns (h: Hit)
    requires lower == Lower(s)
    ensures h == ProbeAssignment(s)
  {
    hide Lower, Run, KeyAt, IsBlank, IsQuote, IsValueChar;
    var separatorIndex := |KeyAt(lower)|;
    if separatorIndex == 0 || separatorIndex == |s| ||
       (s[separatorIndex] != ':' && s[separatorIndex] != '=') {
      return NoHit;
    }
    var valueStart := separatorIndex + 1;
    if valueStart < |s| && IsBlank(s[valueStart]) {
      valueStart := valueStart + 1;
    }
    if valueStart < |s| && IsQuote(s[valueStart]) {
      valueStart := valueStart + 1;
    }
    var valueEnd := SpanEnd(IsValueChar, s, valueStart);
    if valueEnd == valueStart {
      return NoHit;
    }
    return Hit(valueStart, valueEnd, valueEnd);
  }

  method Match(k: Scanner, s: string, lower: string) returns (h: Hit)
    requires lower == Lower(s)
    ensures h == Probe(k, s)
  {
    hide ProbeBearer, ProbeUrl, ProbeAssignment, Run;
    match k {
      case Bearer => h := MatchBearer(s, lower);
      case Linear => h := MatchWordToken("lin_api_", 1, s);
      case Sk => h := MatchWordToken("sk-", 20, s);
      case Slack => h := MatchSlack(s);
      case Aws => h := MatchFixedToken("AKIA", IsAwsChar, 16, s);
      case GitHub => h := MatchFixedToken("ghp_", IsWord, 36, s);
      case CredentialUrl => h := MatchCredentialUrl(s);
      case Assignment => h := MatchAssignment(s, lower);
    }
  }

  lemma LowerSuffix(text: string, i: nat)
    requires i <= |text|
    ensures Lower(text)[i..] == Lower(text[i..])
  {
  }

  /** The outer loop every scanner shares. */
  method RunScanner(k: Scanner, text: string) returns (redacted: string)
    ensures redacted == Scan(k, text)
  {
    hide Probe, Lower;
    redacted := "";
    var lowerText := Lower(text);
    var index := 0;
    while index < |text|
      invariant 0 <= index <= |text|
      invariant redacted + Scan(k, text[index..]) == Scan(k, text)
    {
      LowerSuffix(text, index);
      var h := Match(k, text[index..], lowerText[index..]);
      if h == NoHit {
        CopyStep(k, text, index, redacted);
        redacted := redacted + [text[index]];
        index := index + 1;
      } else {
        HitStep(k, text, index, redacted, h);
        redacted := redacted + Replacement(h, text[index..]);
        index := index + h.end;
      }
    }
  }

  method RedactSecretPatterns(text: string) returns (processed: string)
    ensures processed == RedactSpec(text)
    ensures processed == Scan(Assignment, Scan(CredentialUrl, Scan(GitHub, Scan(Aws,
                           Scan(Slack, Scan(Sk, Scan(Linear, Scan(Bearer, text))))))))
  {
    hide Scan;
    processed := RunScanner(Bearer, text);
    processed := RunScanner(Linear, processed);
    processed := RunScanner(Sk, processed);
    processed := RunScanner(Slack, processed);
    processed := RunScanner(Aws, processed);
    processed := RunScanner(GitHub, processed);
    processed := RunScanner(CredentialUrl, processed);
    processed := RunScanner(Assignment, processed);
  }

  // What the pipeline guarantees

  /** No substring of `t` matches the pattern of token scanner `k`. */
  ghost predicate Clean(k: Scanner, t: string) {
    forall w :: IsSecret(k, w) ==> !Occurs(w, t)
  }

  lemma ScanCleans(k: Scanner, s: string)
    requires IsTokenScanner(k)
    ensures Clean(k, Scan(k, s))
  {
    hide Probe;
    var out := Scan(k, s);
    ScanQuiet(k, s);
    forall w | IsSecret(k, w) ensures !Occurs(w, out) {
      if Occurs(w, out) {
        SecretBracketFree(k, w);
        var i :| 0 <= i <= |out| && w <= out[i..];
        assert out[i..][..SecretLength(k)] == w;
        HitIsSecret(k, out[i..]);
      }
    }
  }

  /** No scanner, run later, brings back a secret of another kind. */
  lemma ScanKeepsClean(k: Scanner, later: Scanner, s: string)
    requires IsTokenScanner(k) && Clean(k, s)
    ensures Clean(k, Scan(later, s))
  {
    hide Probe;
    var out := Scan(later, s);
    forall w | IsSecret(k, w) ensures !Occurs(w, out) {
      if Occurs(w, out) {
        SecretBracketFree(k, w);
        var i :| 0 <= i <= |out| && w <= out[i..];
        BracketFreeSubstring(later, s, w, i);
      }
    }
  }

  /** The redacted text holds no Linear, sk-, Slack, AWS or ghp_ secret anywhere. */
  lemma PipelineClean(text: string, k: Scanner)
    requires IsTokenScanner(k)
    ensures Clean(k, RedactSpec(text))
  {
    hide Probe, Scan, Clean;
    var b := Scan(Bearer, text);
    var l := Scan(Linear, b);
    var s := Scan(Sk, l);
    var x := Scan(Slack, s);
    var a := Scan(Aws, x);
    var g := Scan(GitHub, a);
    var u := Scan(CredentialUrl, g);
    if k.Linear? { ScanCleans(k, b); ScanKeepsClean(k, Sk, l); }
    if k.Sk? { ScanCleans(k, l); }
    if k.Linear? || k.Sk? { ScanKeepsClean(k, Slack, s); }
    if k.Slack? { ScanCleans(k, s); }
    if k.Linear? || k.Sk? || k.Slack? { ScanKeepsClean(k, Aws, x); }
    if k.Aws? { ScanCleans(k, x); }
    if !k.GitHub? { ScanKeepsClean(k, GitHub, a); } else { ScanCleans(k, a); }
    ScanKeepsClean(k, CredentialUrl, g);
    ScanKeepsClean(k, Assignment, u);
  }
}
