/** What a second run of the whole redaction pipeline changes. */
module Pipeline {
  import opened Text
  import opened Scanners
  import opened ScannerProofs
  import opened Redaction

  // Later passes create no bearer credential

  lemma ReplacementHasNoBearer(k: Scanner, s: string, rest: string, i: nat)
    requires k != Bearer && Probe(k, s).Hit? && i < |Replacement(Probe(k, s), s)|
    ensures Probe(Bearer, (Replacement(Probe(k, s), s) + rest)[i..]).NoHit?
  {
    hide Probe;
    KeptHasNoB(k, s);
    UrlTail(k, s);
    ReplacementChar(Probe(k, s), s, i);
    var t := Replacement(Probe(k, s), s);
    assert (t + rest)[i..][0] == t[i];
    NoBNoBearer((t + rest)[i..]);
  }

  lemma ReplacementChar(h: Hit, s: string, i: nat)
    requires h.Hit? && h.kept <= h.cut <= h.end <= |s| && i < |Replacement(h, s)|
    requires forall j :: 0 <= j < h.kept || h.cut <= j < h.end ==> LowerChar(s[j]) != 'b'
    ensures LowerChar(Replacement(h, s)[i]) != 'b'
  {
    if h.kept <= i < h.kept + 10 {
      assert Replacement(h, s)[i] == REDACTED[i - h.kept];
    }
  }

  /** The characters that a hit copies. */
  lemma KeptHasNoB(k: Scanner, s: string)
    requires k != Bearer && Probe(k, s).Hit?
    ensures forall i :: 0 <= i < Probe(k, s).kept ==> LowerChar(s[i]) != 'b'
    ensures k == CredentialUrl ==> s[Probe(k, s).cut] == '@'
  {
    if k == Assignment {
      var key := HitHasKeyShape(s);
      hide Probe, ProbeAssignment, Lower, KeyAt;
      KeyText(key);
      SmallPrefix(s, key);
    } else if k == CredentialUrl {
      SchemeNoB(s);
    }
  }

  lemma SchemeNoB(s: string)
    ensures forall i :: 0 <= i < SchemeLength(s) ==> LowerChar(s[i]) != 'b'
  {
  }

  lemma SmallPrefix(s: string, key: string)
    requires KeyShape(s, key)
    ensures forall i :: |key| <= i < ValueStart(s, |key|) ==> LowerChar(s[i]) != 'b'
  {
  }

  lemma {:induction false} BearerStaysQuiet(k: Scanner, s: string)
    requires k != Bearer && Quiet(Bearer, s)
    ensures Quiet(Bearer, Scan(k, s))
    decreases |s|
  {
    hide Probe;
    if s == "" {
      return;
    }
    var out := Scan(k, s);
    var h := Probe(k, s);
    var n := if h.Hit? then h.end else 1;
    var rest := Scan(k, s[n..]);
    QuietSuffix(Bearer, s, n);
    BearerStaysQuiet(k, s[n..]);
    var m := if h.Hit? then |Replacement(h, s)| else 1;
    forall i | 0 <= i < |out| ensures Probe(Bearer, out[i..]).NoHit? {
      if m <= i {
        assert out[i..] == rest[i - m..];
      } else if h.Hit? {
        ReplacementHasNoBearer(k, s, rest, i);
      } else {
        assert s[0..] == s;
        BearerCopyQuiet(k, s);
        assert out[i..] == CopyOne(k, s);
      }
    }
  }

  lemma QuietSuffix(k: Scanner, s: string, n: nat)
    requires Quiet(k, s) && n <= |s|
    ensures Quiet(k, s[n..])
  {
    hide Probe;
    forall i | 0 <= i < |s[n..]| ensures Probe(k, s[n..][i..]).NoHit? {
      assert s[n..][i..] == s[n + i..];
    }
  }

  // A credential URL that is redacted loses a colon, and no pass adds one

  function Colons(s: string): nat {
    if s == "" then 0 else (if s[0] == ':' then 1 else 0) + Colons(s[1..])
  }

  lemma {:induction false} ColonsAppend(a: string, b: string)
    ensures Colons(a + b) == Colons(a) + Colons(b)
    decreases |a|
  {
    if a == "" {
      assert a + b == b;
    } else {
      assert (a + b)[1..] == a[1..] + b;
      ColonsAppend(a[1..], b);
    }
  }

  lemma UrlCutsColon(s: string)
    requires ProbeUrl(s).Hit?
    ensures var h := ProbeUrl(s); Colons(s[h.kept..h.cut]) > 0
  {
    var h := ProbeUrl(s);
    var colon := h.kept + Run(IsUserChar, s[h.kept..]);
    HasColon(s[h.kept..h.cut], colon - h.kept);
  }

  lemma ReplacementColons(k: Scanner, s: string)
    requires Probe(k, s).Hit?
    ensures var h := Probe(k, s);
            && Colons(Replacement(h, s)) <= Colons(s[..h.end])
            && (k == CredentialUrl ==> Colons(Replacement(h, s)) < Colons(s[..h.end]))
  {
    if k == CredentialUrl { UrlCutsColon(s); }
    hide Probe, Colons, Replacement;
    PartsOfHit(Probe(k, s), s);
  }

  lemma PartsOfHit(h: Hit, s: string)
    requires h.Hit? && h.kept <= h.cut <= h.end <= |s|
    ensures Colons(Replacement(h, s)) + Colons(s[h.kept..h.cut]) == Colons(s[..h.end])
  {
    hide Colons;
    assert s[..h.end] == s[..h.kept] + s[h.kept..h.cut] + s[h.cut..h.end];
    ColonsOfParts(s[..h.kept], s[h.kept..h.cut], s[h.cut..h.end]);
  }

  lemma ColonsOfParts(kept: string, gone: string, tail: string)
    ensures Colons(kept + gone + tail) == Colons(kept) + Colons(gone) + Colons(tail)
    ensures Colons(kept + REDACTED + tail) == Colons(kept) + Colons(tail)
  {
    ColonsAppend(kept + REDACTED, tail);
    ColonsAppend(kept, REDACTED);
    ColonsAppend(kept + gone, tail);
    ColonsAppend(kept, gone);
    NoColons(REDACTED);
  }

  lemma {:induction false} NoColons(s: string)
    requires forall i :: 0 <= i < |s| ==> s[i] != ':'
    ensures Colons(s) == 0
  {
    if s != "" { NoColons(s[1..]); }
  }

  lemma {:induction false} HasColon(s: string, i: nat)
    requires i < |s| && s[i] == ':'
    ensures Colons(s) > 0
  {
    if i != 0 { HasColon(s[1..], i - 1); }
  }

  lemma {:induction false} ScanColons(k: Scanner, s: string)
    ensures Colons(Scan(k, s)) <= Colons(s)
    ensures k == CredentialUrl && !Quiet(k, s) ==> Colons(Scan(k, s)) < Colons(s)
    decreases |s|
  {
    hide Probe;
    if s == "" {
      return;
    }
    var h := Probe(k, s);
    if h.Hit? {
      ScanColons(k, s[h.end..]);
      ReplacementColons(k, s);
      ColonsAppend(Replacement(h, s), Scan(k, s[h.end..]));
      assert s == s[..h.end] + s[h.end..];
      ColonsAppend(s[..h.end], s[h.end..]);
    } else {
      ScanColons(k, s[1..]);
      ColonsAppend([s[0]], Scan(k, s[1..]));
      if Quiet(k, s[1..]) {
        forall i | 0 <= i < |s| ensures Probe(k, s[i..]).NoHit? {
          if i == 0 { assert s[0..] == s; } else { assert s[i..] == s[1..][i - 1..]; }
        }
      }
    }
  }

  // The second run

  lemma CleanQuiet(k: Scanner, t: string)
    requires IsTokenScanner(k) && Clean(k, t)
    ensures Quiet(k, t)
  {
    hide Probe;
    forall i | 0 <= i < |t| ensures Probe(k, t[i..]).NoHit? {
      HitIsSecret(k, t[i..]);
    }
  }

  lemma BearerQuietAfter(text: string)
    ensures Quiet(Bearer, RedactSpec(text))
  {
    hide Probe, Scan, Quiet;
    ScanQuiet(Bearer, text);
    var b := Scan(Bearer, text);
    BearerStaysQuiet(Linear, b);
    var l := Scan(Linear, b);
    BearerStaysQuiet(Sk, l);
    var s := Scan(Sk, l);
    BearerStaysQuiet(Slack, s);
    var x := Scan(Slack, s);
    BearerStaysQuiet(Aws, x);
    var a := Scan(Aws, x);
    BearerStaysQuiet(GitHub, a);
    var g := Scan(GitHub, a);
    BearerStaysQuiet(CredentialUrl, g);
    BearerStaysQuiet(Assignment, Scan(CredentialUrl, g));
  }

  lemma TokensQuiet(text: string)
    ensures TokensRedacted(RedactSpec(text)) == RedactSpec(text)
  {
    hide Probe, Scan, Quiet, Clean;
    var out := RedactSpec(text);
    BearerQuietAfter(text);
    QuietScan(Bearer, out);
    TokenPassIdle(text, Linear);
    TokenPassIdle(text, Sk);
    TokenPassIdle(text, Slack);
    TokenPassIdle(text, Aws);
    TokenPassIdle(text, GitHub);
  }

  lemma TokenPassIdle(text: string, k: Scanner)
    requires IsTokenScanner(k)
    ensures Scan(k, RedactSpec(text)) == RedactSpec(text)
  {
    hide Probe, Scan, Quiet, Clean;
    PipelineClean(text, k);
    CleanQuiet(k, RedactSpec(text));
    QuietScan(k, RedactSpec(text));
  }

  /**
   * Redacting a second time changes nothing exactly when the redacted text holds no credential
   * URL; every other pass finds its work done.
   */
  lemma SecondRun(text: string)
    ensures RedactSpec(RedactSpec(text)) == RedactSpec(text) <==> Quiet(CredentialUrl, RedactSpec(text))
  {
    hide Probe, Scan, Quiet, TokensRedacted;
    var out := RedactSpec(text);
    TokensQuiet(text);
    ScanColons(CredentialUrl, out);
    ScanColons(Assignment, Scan(CredentialUrl, out));
    AssignmentIdempotent(Scan(CredentialUrl, TokensRedacted(text)));
    if Quiet(CredentialUrl, out) { QuietScan(CredentialUrl, out); }
  }

  // Running it again and again

  function Times(n: nat, text: string): string {
    if n == 0 then text else RedactSpec(Times(n - 1, text))
  }

  lemma RunColons(text: string)
    ensures Colons(RedactSpec(text)) <= Colons(text)
  {
    hide Scan, Colons, Quiet;
    var b := Scan(Bearer, text);
    var l := Scan(Linear, b);
    var s := Scan(Sk, l);
    var x := Scan(Slack, s);
    var a := Scan(Aws, x);
    var g := Scan(GitHub, a);
    ScanColons(Bearer, text);
    ScanColons(Linear, b);
    ScanColons(Sk, l);
    ScanColons(Slack, s);
    ScanColons(Aws, x);
    ScanColons(GitHub, a);
    ScanColons(CredentialUrl, g);
    ScanColons(Assignment, Scan(CredentialUrl, g));
  }

  /** A later run that still changes something takes a colon away. */
  lemma ChangeCostsColon(text: string)
    ensures var out := RedactSpec(text); RedactSpec(out) == out || Colons(RedactSpec(out)) < Colons(out)
  {
    hide Scan, Colons, Quiet, TokensRedacted;
    var out := RedactSpec(text);
    SecondRun(text);
    TokensQuiet(text);
    ScanColons(CredentialUrl, out);
    ScanColons(Assignment, Scan(CredentialUrl, out));
  }

  lemma {:induction false} TimesColons(n: nat, text: string)
    ensures var out := Times(n + 1, text); RedactSpec(out) == out || Colons(out) + n <= Colons(text)
  {
    hide RedactSpec, Colons;
    if n == 0 {
      assert Times(1, text) == RedactSpec(Times(0, text));
      RunColons(text);
    } else {
      TimesColons(n - 1, text);
      assert Times(n + 1, text) == RedactSpec(Times(n, text)) && Times(n, text) == RedactSpec(Times(n - 1, text));
      ChangeCostsColon(Times(n - 1, text));
    }
  }

  /** The pipeline always settles: one run more than the text has colons, and nothing changes any more. */
  lemma Settles(n: nat, text: string)
    requires n >= Colons(text)
    ensures RedactSpec(Times(n + 1, text)) == Times(n + 1, text)
  {
    hide RedactSpec, Colons;
    TimesColons(n, text);
    assert Times(n + 1, text) == RedactSpec(Times(n, text));
    ChangeCostsColon(Times(n, text));
  }

  // The texts that the pipeline leaves alone

  /** If an assignment starts the text, its value is the marker already. */
  predicate Marked(s: string) {
    var h := Probe(Assignment, s);
    h.Hit? ==> s[h.kept..h.end] == REDACTED
  }

  ghost predicate AllMarked(t: string) {
    forall i :: 0 <= i < |t| ==> Marked(t[i..])
  }

  lemma AllMarkedCons(t: string, n: nat)
    requires 0 < n <= |t|
    requires forall j :: 1 <= j < n ==> Probe(Assignment, t[j..]).NoHit?
    ensures AllMarked(t) <==> Marked(t) && AllMarked(t[n..])
  {
    hide Probe;
    assert t[0..] == t;
    assert forall i :: 0 <= i < |t| - n ==> t[n..][i..] == t[n + i..];
    if Marked(t) && AllMarked(t[n..]) {
      forall i | 0 <= i < |t| ensures Marked(t[i..]) {
        if n <= i { assert t[i..] == t[n..][i - n..]; }
      }
    }
    if AllMarked(t) {
      forall i | 0 <= i < |t[n..]| ensures Marked(t[n..][i..]) {
        assert Marked(t[n + i..]);
      }
    }
  }

  /** No assignment starts inside one whose value is the marker. */
  lemma QuietInside(s: string, j: nat)
    requires Probe(Assignment, s).Hit? && Marked(s) && 1 <= j < Probe(Assignment, s).end
    ensures Probe(Assignment, s[j..]).NoHit?
  {
    var h := Probe(Assignment, s);
    var key := HitHasKeyShape(s);
    hide ProbeAssignment;
    if j < h.kept {
      AssignmentQuietBody(s, key, j);
    } else {
      assert s[h.kept..h.end][j - h.kept] == s[j] == REDACTED[j - h.kept];
      assert j + 1 < h.end ==> s[h.kept..h.end][j + 1 - h.kept] == s[j + 1] == REDACTED[j + 1 - h.kept];
      MarkerStartsNothing(j - h.kept);
      if Probe(Assignment, s[j..]).Hit? {
        HitStart(Assignment, s[j..]);
      }
    }
  }

  lemma MarkerStartsNothing(i: nat)
    requires i < 10
    ensures forall b: char :: !(i == 9) || !Starts(Assignment, LowerChar(REDACTED[i]), b)
    ensures i < 9 ==> !Starts(Assignment, LowerChar(REDACTED[i]), LowerChar(REDACTED[i + 1]))
  {
  }

  lemma MarkerIsOneValue(s: string, kept: nat, end: nat, rest: string)
    requires kept < end <= |s| && s == s[..kept] + REDACTED + rest
    requires forall i :: kept <= i < end ==> IsValueChar(s[i])
    requires end < |s| ==> !IsValueChar(s[end])
    requires rest != "" ==> !IsValueChar(rest[0])
    ensures s[kept..end] == REDACTED && s[end..] == rest
  {
    assert s[kept..kept + 10] == REDACTED && s[kept + 10..] == rest;
    if end < kept + 10 {
      MarkerChar(end - kept);
    }
  }

  lemma MarkerChar(i: nat)
    requires i < 10
    ensures IsValueChar(REDACTED[i])
  {
  }

  /** A rewritten assignment that reads as before had the marker for its value. */
  lemma FixedHit(s: string)
    requires Probe(Assignment, s).Hit? && Scan(Assignment, s) == s
    ensures Marked(s) && var e := Probe(Assignment, s).end; Scan(Assignment, s[e..]) == s[e..]
  {
    hide Probe, Run, IsValueChar;
    ValueOfHit(s);
    var h := Probe(Assignment, s);
    TerminatorFirst(s, h.end);
    MarkerIsOneValue(s, h.kept, h.end, Scan(Assignment, s[h.end..]));
  }

  lemma ValueOfHit(s: string)
    requires Probe(Assignment, s).Hit?
    ensures var h := Probe(Assignment, s);
            && h.cut == h.end
            && (forall i :: h.kept <= i < h.end ==> IsValueChar(s[i]))
            && (h.end < |s| ==> !IsValueChar(s[h.end]))
  {
    hide IsValueChar, KeyAt, ValueStart;
    var end := RunFacts(IsValueChar, s, Probe(Assignment, s).kept);
  }

  lemma PutBack(t: string, kept: nat, end: nat)
    requires kept <= end <= |t|
    ensures t[..kept] + t[kept..end] + t[end..end] + t[end..] == t
  {
  }

  lemma MarkedHit(t: string)
    requires Probe(Assignment, t).Hit? && Marked(t)
    ensures var e := Probe(Assignment, t).end; Scan(Assignment, t[e..]) == t[e..] ==> Scan(Assignment, t) == t
  {
    hide Probe, Scan;
    ValueOfHit(t);
    ScanAtHit(Assignment, t);
    PutBack(t, Probe(Assignment, t).kept, Probe(Assignment, t).end);
  }

  lemma FixedMiss(t: string)
    requires t != "" && Probe(Assignment, t).NoHit?
    ensures Scan(Assignment, t) == t <==> Scan(Assignment, t[1..]) == t[1..]
  {
    hide Probe, Scan;
    ScanAtMiss(Assignment, t);
    assert Scan(Assignment, t)[1..] == Scan(Assignment, t[1..]);
    assert t == [t[0]] + t[1..];
  }

  lemma AllMarkedFirst(t: string)
    requires t != "" && AllMarked(t)
    ensures Marked(t)
  {
    hide Marked;
    assert t[0..] == t;
  }

  /** The last pass leaves exactly the texts in which every assignment has the marker for its value. */
  lemma {:induction false} AssignmentFixed(t: string)
    ensures Scan(Assignment, t) == t <==> AllMarked(t)
    decreases |t|
  {
    if t == "" {
      return;
    }
    hide Probe, Scan, AllMarked, ProbeAssignment;
    var h := Probe(Assignment, t);
    if h.NoHit? {
      AssignmentFixed(t[1..]);
      AllMarkedCons(t, 1);
      FixedMiss(t);
    } else {
      AssignmentFixed(t[h.end..]);
      if Scan(Assignment, t) == t { FixedHit(t); }
      if Marked(t) {
        forall j | 1 <= j < h.end ensures Probe(Assignment, t[j..]).NoHit? { QuietInside(t, j); }
        AllMarkedCons(t, h.end);
        MarkedHit(t);
      } else {
        if AllMarked(t) { AllMarkedFirst(t); }
      }
    }
  }

  /**
   * The fixed points of the whole pipeline: the texts in which the seven other scanners find
   * nothing and every assignment has the marker for its value.
   */
  lemma FixedPoint(t: string)
    ensures RedactSpec(t) == t <==> (forall k: Scanner :: k != Assignment ==> Quiet(k, t)) && AllMarked(t)
  {
    hide Probe, Scan, Quiet, AllMarked, TokensRedacted;
    AssignmentFixed(t);
    if RedactSpec(t) == t {
      FixedIsQuiet(t);
    }
    if (forall k: Scanner :: k != Assignment ==> Quiet(k, t)) && AllMarked(t) {
      QuietIsFixed(t);
    }
  }

  lemma QuietIsFixed(t: string)
    requires forall k: Scanner :: k != Assignment ==> Quiet(k, t)
    ensures RedactSpec(t) == Scan(Assignment, t)
  {
    hide Probe, Scan, Quiet;
    QuietScan(Bearer, t);
    QuietScan(Linear, t);
    QuietScan(Sk, t);
    QuietScan(Slack, t);
    QuietScan(Aws, t);
    QuietScan(GitHub, t);
    QuietScan(CredentialUrl, t);
  }

  lemma FixedIsQuiet(t: string)
    requires RedactSpec(t) == t
    ensures Scan(Assignment, t) == t && forall k: Scanner :: k != Assignment ==> Quiet(k, t)
  {
    hide Probe, Scan, Quiet, Clean, TokensRedacted;
    BearerQuietAfter(t);
    forall k: Scanner | k != Assignment ensures Quiet(k, t) {
      if IsTokenScanner(k) {
        PipelineClean(t, k);
        CleanQuiet(k, t);
      } else if k == CredentialUrl {
        TokensQuiet(t);
        ScanColons(CredentialUrl, t);
        ScanColons(Assignment, Scan(CredentialUrl, t));
      }
    }
    TokensQuiet(t);
    QuietScan(CredentialUrl, t);
  }

  // A text that a second run changes

  const URL: string := "http://"
  const ASSIGN: string := "token:"
  const TAIL: string := "/\"@"

  lemma QuietUnlessStarts(k: Scanner, t: string)
    requires forall i :: 0 <= i && i + 1 < |t| && Probe(k, t[i..]).Hit? ==> !Starts(k, LowerChar(t[i]), LowerChar(t[i + 1]))
    ensures Quiet(k, t)
  {
    hide Probe, Starts;
    forall i | 0 <= i < |t| ensures Probe(k, t[i..]).NoHit? {
      if Probe(k, t[i..]).Hit? {
        HitStart(k, t[i..]);
      }
    }
  }

  lemma TokensLeaveExample(k: Scanner)
    requires k != CredentialUrl && k != Assignment
    ensures Scan(k, URL + ASSIGN + TAIL) == URL + ASSIGN + TAIL
  {
    hide Probe, Scan;
    QuietUnlessStarts(k, URL + ASSIGN + TAIL);
    QuietScan(k, URL + ASSIGN + TAIL);
  }

  lemma NoPassword()
    ensures Probe(CredentialUrl, URL + ASSIGN + TAIL).NoHit?
  {
    var t := URL + ASSIGN + TAIL;
    RunFrom(IsUserChar, t, 7, 12);
    RunFrom(IsPasswordChar, t, 13, 13);
  }

  /** A password may not hold a slash, so this is not yet a credential URL. */
  lemma UrlLeavesExample()
    ensures Scan(CredentialUrl, URL + ASSIGN + TAIL) == URL + ASSIGN + TAIL
  {
    hide Probe, Scan;
    var t := URL + ASSIGN + TAIL;
    assert t[0..] == t;
    NoPassword();
    QuietUnlessStarts(CredentialUrl, t);
    QuietScan(CredentialUrl, t);
  }

  lemma {:induction false} QuietPrefix(k: Scanner, a: string, b: string)
    requires forall i :: 0 <= i < |a| ==> Probe(k, (a + b)[i..]).NoHit?
    ensures Scan(k, a + b) == a + Scan(k, b)
    decreases |a|
  {
    hide Probe;
    if a == "" {
      assert a + b == b;
    } else {
      assert (a + b)[0..] == a + b && (a + b)[1..] == a[1..] + b;
      forall i | 0 <= i < |a[1..]| ensures Probe(k, (a[1..] + b)[i..]).NoHit? {
        assert (a[1..] + b)[i..] == (a + b)[i + 1..];
      }
      QuietPrefix(k, a[1..], b);
    }
  }

  /** But it holds an assignment, whose value goes. */
  lemma AssignmentOfExample()
    ensures Scan(Assignment, URL + ASSIGN + TAIL) == URL + ASSIGN + REDACTED + "\"@"
  {
    var s := ASSIGN + TAIL;
    AssignmentHit();
    hide Probe;
    assert s[..6] == ASSIGN && s[7..] == "\"@";
    QuietUnlessStarts(Assignment, "\"@");
    QuietScan(Assignment, "\"@");
    assert Scan(Assignment, s) == ASSIGN + REDACTED + "\"@";
    assert URL + ASSIGN + TAIL == URL + s;
    forall i | 0 <= i < 7 ensures Probe(Assignment, (URL + s)[i..]).NoHit? {
      if Probe(Assignment, (URL + s)[i..]).Hit? { HitStart(Assignment, (URL + s)[i..]); }
    }
    QuietPrefix(Assignment, URL, s);
  }

  lemma AssignmentHit()
    ensures Probe(Assignment, ASSIGN + TAIL) == Hit(6, 7, 7)
  {
    var s := ASSIGN + TAIL;
    assert IsKey("token") by { assert KEYS[6] == "token"; }
    assert |s| == 9 && s[5] == ':' && s[6] == '/' && s[7] == '"';
    assert ValueStart(s, 5) == 6 && IsValueChar(s[6]) && !IsValueChar(s[7]);
    assert KeyShape(s, "token") by { assert forall i :: 0 <= i < 5 ==> s[i] == "token"[i]; hide IsKey; }
    hide IsKey, KeyShape, ProbeAssignment, ValueStart, IsValueChar, Run;
    KeyShapeProbe(s, "token");
    RunFrom(IsValueChar, s, 6, 7);
  }

  /** Now the marker stands where the slash was, and the URL reads as one with credentials. */
  lemma UrlOfExample()
    ensures Probe(CredentialUrl, URL + ASSIGN + REDACTED + "\"@").Hit?
  {
    var t := URL + ASSIGN + REDACTED + "\"@";
    UserOfExample(t);
    PasswordOfExample(t);
    assert t[12] == ':' && t[24] == '@' && |t| == 25;
    SchemeOfExample(t);
    hide IsUserChar, IsPasswordChar, IsUrlSpace, Run, SchemeLength;
    RunFrom(IsUserChar, t, 7, 12);
    RunFrom(IsPasswordChar, t, 13, 24);
  }

  lemma SchemeOfExample(t: string)
    requires URL <= t
    ensures SchemeLength(t) == 7
  {
    assert t[4] == ':';
  }

  lemma UserOfExample(t: string)
    requires t == URL + ASSIGN + REDACTED + "\"@"
    ensures (forall i :: 7 <= i < 12 ==> IsUserChar(t[i])) && !IsUserChar(t[12])
  {
    assert t[7..13] == ASSIGN;
    assert forall i :: 7 <= i < 13 ==> t[i] == ASSIGN[i - 7];
  }

  lemma PasswordOfExample(t: string)
    requires t == URL + ASSIGN + REDACTED + "\"@"
    ensures (forall i :: 13 <= i < 24 ==> IsPasswordChar(t[i])) && !IsPasswordChar(t[24])
  {
    assert t[13..23] == REDACTED && t[23] == '"' && t[24] == '@';
    assert forall i :: 13 <= i < 23 ==> t[i] == REDACTED[i - 13];
  }

  /** The whole pipeline is not idempotent. */
  lemma NotIdempotent()
    ensures RedactSpec(RedactSpec(URL + ASSIGN + TAIL)) != RedactSpec(URL + ASSIGN + TAIL)
  {
    hide Probe, Scan;
    var t := URL + ASSIGN + TAIL;
    TokensLeaveExample(Bearer);
    TokensLeaveExample(Linear);
    TokensLeaveExample(Sk);
    TokensLeaveExample(Slack);
    TokensLeaveExample(Aws);
    TokensLeaveExample(GitHub);
    UrlLeavesExample();
    AssignmentOfExample();
    UrlOfExample();
    SecondRun(t);
    assert RedactSpec(t)[0..] == RedactSpec(t);
  }
}
