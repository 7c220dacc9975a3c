/** Every scanner is idempotent, and no scanner creates text that was not there. */
module ScannerProofs {
  import opened Text
  import opened Scanners

  // ---------------------------------------------------------------------
  // What a scan can and cannot create

  predicate BracketFree(w: string) {
    forall i :: 0 <= i < |w| ==> w[i] != '[' && w[i] != ']'
  }

  /** Up to its first bracket, a scan's output is its input. */
  lemma {:induction false} BracketFreePrefix(k: Scanner, s: string, w: string)
    requires BracketFree(w) && w <= Scan(k, s)
    ensures w <= s
    decreases |s|
  {
    hide Probe;
    if s == "" || w == "" {
      return;
    }
    var h := Probe(k, s);
    if h.Hit? {
      var out := Scan(k, s);
      assert out[h.kept] == '[';
      assert |w| <= h.kept;
      assert out[..h.kept] == s[..h.kept];
    } else {
      assert Scan(k, s)[1..] == Scan(k, s[1..]);
      BracketFreePrefix(k, s[1..], w[1..]);
    }
  }

  lemma OccursInSuffix(w: string, t: string, n: nat)
    requires n <= |t| && Occurs(w, t[n..])
    ensures Occurs(w, t)
  {
    var i :| 0 <= i <= |t| - n && w <= t[n..][i..];
    assert t[n..][i..] == t[n + i..];
  }

  /**
   * No scanner can assemble new text out of pieces: a bracket-free substring of
   * its output was already a substring of its input, or is part of the marker.
   */
  lemma {:induction false} BracketFreeSubstring(k: Scanner, s: string, w: string, i: nat)
    requires w != "" && BracketFree(w)
    requires i <= |Scan(k, s)| && w <= Scan(k, s)[i..]
    ensures Occurs(w, s) || Occurs(w, "REDACTED")
    decreases |s|
  {
    hide Probe;
    var out := Scan(k, s);
    if i == 0 {
      assert out[0..] == out;
      BracketFreePrefix(k, s, w);
      assert w <= s[0..];
      return;
    }
    var h := Probe(k, s);
    if !h.Hit? {
      assert out[i..] == Scan(k, s[1..])[i - 1..];
      BracketFreeSubstring(k, s[1..], w, i - 1);
      if Occurs(w, s[1..]) { OccursInSuffix(w, s, 1); }
    } else {
      if h.kept + 10 + (h.end - h.cut) <= i {
        var j := i - (h.kept + 10 + (h.end - h.cut));
        assert out[i..] == Scan(k, s[h.end..])[j..];
        BracketFreeSubstring(k, s[h.end..], w, j);
        if Occurs(w, s[h.end..]) { OccursInSuffix(w, s, h.end); }
      } else {
        SubstringOfHit(k, s, w, i);
      }
    }
  }

  /** The case of the previous lemma where `w` starts inside one replacement. */
  lemma SubstringOfHit(k: Scanner, s: string, w: string, i: nat)
    requires w != "" && BracketFree(w) && s != "" && Probe(k, s).Hit?
    requires i <= |Scan(k, s)| && w <= Scan(k, s)[i..]
    requires i < |Replacement(Probe(k, s), s)|
    ensures Occurs(w, s) || Occurs(w, "REDACTED")
  {
    hide Probe;
    var out := Scan(k, s);
    var h := Probe(k, s);
    assert forall j :: 0 <= j < |w| ==> w[j] == out[i + j];
    assert out[h.kept] == '[' && out[h.kept + 9] == ']';
    if i < h.kept {
      assert w <= s[i..];
    } else if i < h.kept + 10 {
      var o := i - h.kept - 1;
      assert i != h.kept && i != h.kept + 9;
      assert forall j :: 0 <= j < |w| ==> w[j] == "REDACTED"[o + j];
      assert w <= "REDACTED"[o..];
    } else {
      // Only a credential URL copies text after the marker: the one '@' before `end`.
      assert h.cut + 1 == h.end && i == h.kept + 10 by { UrlTail(k, s); }
      var rest := Scan(k, s[h.end..]);
      assert out[i + 1..] == rest;
      assert w[1..] <= rest;
      BracketFreePrefix(k, s[h.end..], w[1..]);
      assert w <= s[h.cut..];
    }
  }

  lemma UrlTail(k: Scanner, s: string)
    requires Probe(k, s).Hit?
    ensures var h := Probe(k, s); h.cut == h.end || (k == CredentialUrl && h.cut + 1 == h.end)
  {
  }

  // ---------------------------------------------------------------------
  // The five token patterns

  predicate IsTokenScanner(k: Scanner) {
    k.Linear? || k.Sk? || k.Slack? || k.Aws? || k.GitHub?
  }

  /** Length of the shortest text a token scanner reacts to. */
  function SecretLength(k: Scanner): nat {
    match k
    case Linear => 9
    case Sk => 23
    case Slack => 6
    case Aws => 20
    case GitHub => 40
    case _ => 0
  }

  /** `w` is a shortest match of the pattern, read off the pattern itself. */
  predicate IsSecret(k: Scanner, w: string) {
    && IsTokenScanner(k)
    && |w| == SecretLength(k)
    && match k
       case Linear => "lin_api_" <= w && IsWord(w[8])
       case Sk => "sk-" <= w && All(IsWord, w[3..])
       case Slack => "xox" <= w && w[3] in "baprs" && w[4] == '-' && IsSlackChar(w[5])
       case Aws => "AKIA" <= w && All(IsAwsChar, w[4..])
       case GitHub => "ghp_" <= w && All(IsWord, w[4..])
       case _ => true
  }

  predicate All(p: char -> bool, s: string) {
    forall i :: 0 <= i < |s| ==> p(s[i])
  }

  lemma {:induction false} RunAtLeast(p: char -> bool, s: string, n: nat)
    ensures n <= Run(p, s) <==> n <= |s| && All(p, s[..n])
  {
    var m := Run(p, s);
    if m < n <= |s| {
      assert s[..n][m] == s[m];
    }
  }

  /** A token scanner hits exactly where its pattern starts. */
  lemma HitIsSecret(k: Scanner, s: string)
    requires IsTokenScanner(k)
    ensures Probe(k, s).Hit? <==> SecretLength(k) <= |s| && IsSecret(k, s[..SecretLength(k)])
  {
    var n := SecretLength(k);
    match k {
      case Linear => if "lin_api_" <= s { RunAtLeast(IsWord, s[8..], 1); }
      case Sk => if "sk-" <= s { RunAtLeast(IsWord, s[3..], 20); assert n <= |s| ==> s[..n][3..] == s[3..][..20]; }
      case Slack => if 5 <= |s| { RunAtLeast(IsSlackChar, s[5..], 1); }
      case Aws => if "AKIA" <= s { RunAtLeast(IsAwsChar, s[4..], 16); assert n <= |s| ==> s[..n][4..] == s[4..][..16]; }
      case GitHub => if "ghp_" <= s { RunAtLeast(IsWord, s[4..], 36); assert n <= |s| ==> s[..n][4..] == s[4..][..36]; }
    }
  }

  lemma SecretBracketFree(k: Scanner, w: string)
    requires IsSecret(k, w)
    ensures BracketFree(w) && w != "" && !Occurs(w, "REDACTED")
  {
    assert forall i :: 0 <= i <= 8 ==> |"REDACTED"[i..]| == 8 - i;
  }

  // ---------------------------------------------------------------------
  // Every scanner is idempotent

  /** No position of `t` makes scanner `k` react. */
  ghost predicate Quiet(k: Scanner, t: string) {
    forall i :: 0 <= i < |t| ==> Probe(k, t[i..]).NoHit?
  }

  lemma {:induction false} QuietScan(k: Scanner, t: string)
    requires Quiet(k, t)
    ensures Scan(k, t) == t
    decreases |t|
  {
    hide Probe;
    if t != "" {
      assert t[0..] == t;
      forall i | 0 <= i < |t[1..]| ensures Probe(k, t[1..][i..]).NoHit? {
        assert t[1..][i..] == t[i + 1..];
      }
      QuietScan(k, t[1..]);
    }
  }

  /** A scan copies everything up to `z` if each earlier hit keeps the text up to `z`. */
  lemma {:induction false} FaithfulUpTo(k: Scanner, s: string, z: nat)
    requires z < |s|
    requires forall j :: 0 <= j <= z && Probe(k, s[j..]).Hit? ==> z < j + Probe(k, s[j..]).kept
    ensures z < |Scan(k, s)| && Scan(k, s)[..z + 1] == s[..z + 1]
    decreases |s|
  {
    hide Probe, Scan;
    assert s[0..] == s;
    var h := Probe(k, s);
    if h.Hit? {
      ScanAtHit(k, s);
      assert z < h.kept;
      assert Scan(k, s)[..h.kept] == s[..h.kept];
      assert s[..z + 1] == s[..h.kept][..z + 1];
    } else if 0 < z {
      forall j | 0 <= j <= z - 1 && Probe(k, s[1..][j..]).Hit?
        ensures z - 1 < j + Probe(k, s[1..][j..]).kept
      {
        assert s[1..][j..] == s[j + 1..];
      }
      FaithfulUpTo(k, s[1..], z - 1);
      ScanAtMiss(k, s);
      TakeCons(s, z);
      TakeCons(Scan(k, s), z);
    } else {
      ScanAtMiss(k, s);
    }
  }

  lemma TakeCons(s: string, z: nat)
    requires z < |s|
    ensures s[..z + 1] == [s[0]] + s[1..][..z]
  {
  }

  lemma ScanAtMiss(k: Scanner, s: string)
    requires s != "" && Probe(k, s).NoHit?
    ensures Scan(k, s) == [s[0]] + Scan(k, s[1..])
  {
    hide Probe;
  }

  /** Text with its first character copied and the rest scanned: see `BracketFreePrefix`. */
  function CopyOne(k: Scanner, s: string): string
    requires s != ""
  {
    [s[0]] + Scan(k, s[1..])
  }

  lemma CopyOnePrefix(k: Scanner, s: string, w: string)
    requires s != "" && BracketFree(w) && w <= CopyOne(k, s)
    ensures w <= s
  {
    hide Probe;
    if w != "" {
      assert w[1..] <= CopyOne(k, s)[1..];
      assert CopyOne(k, s)[1..] == Scan(k, s[1..]);
      BracketFreePrefix(k, s[1..], w[1..]);
      assert w == [s[0]] + w[1..];
    }
  }

  lemma TokenCopyQuiet(k: Scanner, s: string)
    requires IsTokenScanner(k) && s != "" && Probe(k, s).NoHit?
    ensures Probe(k, CopyOne(k, s)).NoHit?
  {
    hide Probe;
    hide IsSecret;
    var out := CopyOne(k, s);
    HitIsSecret(k, out);
    if Probe(k, out).Hit? {
      var w := out[..SecretLength(k)];
      SecretBracketFree(k, w);
      CopyOnePrefix(k, s, w);
      PrefixHit(k, s, w);
    }
  }

  lemma PrefixHit(k: Scanner, s: string, w: string)
    requires IsSecret(k, w) && w <= s
    ensures Probe(k, s).Hit?
  {
    hide Probe;
    assert s[..|w|] == w;
    HitIsSecret(k, s);
  }

  /** Like `FaithfulUpTo`, for text whose first character is copied. */
  lemma CopyOneFaithful(k: Scanner, s: string, z: nat)
    requires z < |s|
    requires forall j :: 1 <= j <= z && Probe(k, s[j..]).Hit? ==> z < j + Probe(k, s[j..]).kept
    ensures s[..z + 1] <= CopyOne(k, s)
  {
    hide Probe;
    if 0 < z {
      forall j | 0 <= j <= z - 1 && Probe(k, s[1..][j..]).Hit?
        ensures z - 1 < j + Probe(k, s[1..][j..]).kept
      {
        assert s[1..][j..] == s[j + 1..];
      }
      FaithfulUpTo(k, s[1..], z - 1);
      TakeCons(s, z);
    }
  }

  lemma CopyOneWhole(k: Scanner, s: string)
    requires s != ""
    requires forall j :: 1 <= j < |s| ==> Probe(k, s[j..]).NoHit?
    ensures CopyOne(k, s) == s
  {
    hide Probe;
    forall j | 0 <= j < |s[1..]| ensures Probe(k, s[1..][j..]).NoHit? {
      assert s[1..][j..] == s[j + 1..];
    }
    QuietScan(k, s[1..]);
  }

  // Bearer tokens

  /** "bearer", blanks up to `p`, token characters up to `q`, both runs maximal. */
  predicate BearerShape(s: string, p: nat, q: nat) {
    && 6 < p <= q <= |s|
    && StartsBearer(s)
    && (forall i :: 6 <= i < p ==> IsBlank(s[i]))
    && (p < |s| ==> !IsBlank(s[p]))
    && (forall i :: p <= i < q ==> IsBearerChar(s[i]))
    && (q < |s| ==> !IsBearerChar(s[q]))
  }

  predicate StartsBearer(s: string) {
    && 6 <= |s|
    && LowerChar(s[0]) == 'b' && LowerChar(s[1]) == 'e' && LowerChar(s[2]) == 'a'
    && LowerChar(s[3]) == 'r' && LowerChar(s[4]) == 'e' && LowerChar(s[5]) == 'r'
  }

  lemma BearerWord(s: string)
    ensures "bearer" <= Lower(s) <==> StartsBearer(s)
  {
    if StartsBearer(s) {
      assert Lower(s)[..6] == "bearer";
    } else if "bearer" <= Lower(s) {
      assert forall i :: 0 <= i < 6 ==> Lower(s)[i] == "bearer"[i];
    }
  }

  lemma BearerAnatomy(s: string, p: nat, q: nat)
    requires BearerShape(s, p, q)
    ensures ProbeBearer(s).Hit? <==>
            !IsPlaceholder(Lower(s)[p..q]) && (p < q || (q < |s| && s[q] == '='))
  {
    hide Lower, IsPlaceholder, LowerChar, IsBlank, IsBearerChar, Run;
    BearerWord(s);
    RunFrom(IsBlank, s, 6, p);
    RunFrom(IsBearerChar, s, p, q);
    assert q < |s| ==> s[q..][0] == s[q];
  }

  lemma BearerHasShape(s: string) returns (p: nat, q: nat)
    requires ProbeBearer(s).Hit?
    ensures BearerShape(s, p, q)
  {
    BearerWord(s);
    p := RunFacts(IsBlank, s, 6);
    q := RunFacts(IsBearerChar, s, p);
  }

  /** The head of a bearer match has no bracket, so a scan cannot have created it. */
  lemma BearerSameHead(k: Scanner, s: string, p: nat, q: nat) returns (r: nat)
    requires s != "" && BearerShape(CopyOne(k, s), p, q) && p < |CopyOne(k, s)|
    requires IsBearerChar(CopyOne(k, s)[p]) || CopyOne(k, s)[p] == '='
    ensures p < |s| && s[p] == CopyOne(k, s)[p]
    ensures IsBearerChar(s[p]) || s[p] == '='
    ensures BearerShape(s, p, r)
  {
    hide Probe, Scan;
    var out := CopyOne(k, s);
    var w := out[..p + 1];
    CopyOnePrefix(k, s, w);
    assert forall i :: 0 <= i <= p ==> w[i] == out[i] == s[i];
    r := RunFacts(IsBearerChar, s, p);
  }

  /** The first two characters, lower-cased, of a text that scanner `k` reacts to. */
  predicate Starts(k: Scanner, a: char, b: char) {
    match k
    case Bearer => a == 'b'
    case Linear => a == 'l' && b == 'i'
    case Sk => a == 's'
    case Slack => a == 'x'
    case Aws => a == 'a' && b == 'k'
    case GitHub => a == 'g'
    case CredentialUrl => a == 'h'
    case Assignment =>
      (a == 'p' && b == 'a') || (a == 's' && b == 'e') || (a == 't' && b == 'o') || (a == 'a' && (b == 'p' || b == 'u'))
  }

  lemma SecretStart(k: Scanner, w: string)
    requires IsSecret(k, w)
    ensures 2 <= |w| && Starts(k, LowerChar(w[0]), LowerChar(w[1]))
    ensures w[0] in "lsxAg" && (w[0] == 'A' ==> w[1] == 'K')
  {
  }

  lemma HitStart(k: Scanner, s: string)
    requires Probe(k, s).Hit?
    ensures 2 <= |s| && Starts(k, LowerChar(s[0]), LowerChar(s[1]))
  {
    if IsTokenScanner(k) {
      hide Probe;
      HitIsSecret(k, s);
      SecretStart(k, s[..SecretLength(k)]);
    } else if k == Bearer {
      BearerWord(s);
    } else if k == CredentialUrl {
      SchemeText(s);
    } else {
      var key := HitHasKeyShape(s);
      hide Probe;
      KeyText(key);
    }
  }

  lemma NoBNoBearer(t: string)
    requires t != "" && LowerChar(t[0]) != 'b'
    ensures Probe(Bearer, t).NoHit?
  {
    hide Probe;
    if Probe(Bearer, t).Hit? { HitStart(Bearer, t); }
  }

  lemma PlaceholderChars(token: string, i: nat)
    requires IsPlaceholder(token) && i < |token|
    ensures token[i] in "nuldefi" && (token[i] == 'l' && i + 1 < |token| ==> token[i + 1] == 'l')
  {
  }

  lemma BearerBodyChars(k: Scanner, s: string, p: nat, q: nat, j: nat)
    requires BearerShape(s, p, q) && IsPlaceholder(Lower(s)[p..q])
    requires 1 <= j <= q && j + 1 < |s|
    ensures !Starts(k, LowerChar(s[j]), LowerChar(s[j + 1]))
  {
    hide IsPlaceholder;
    if p <= j < q {
      PlaceholderChars(Lower(s)[p..q], j - p);
      assert Lower(s)[p..q][j - p] == LowerChar(s[j]);
      assert j + 1 < q ==> Lower(s)[p..q][j + 1 - p] == LowerChar(s[j + 1]);
    }
  }

  /** No scanner reacts inside "bearer null" or "bearer undefined". */
  lemma BearerQuietBody(k: Scanner, s: string, p: nat, q: nat, j: nat)
    requires BearerShape(s, p, q) && IsPlaceholder(Lower(s)[p..q])
    requires 1 <= j <= q && j < |s|
    ensures Probe(k, s[j..]).NoHit?
  {
    hide Probe, Starts, Lower, IsPlaceholder;
    if Probe(k, s[j..]).Hit? {
      HitStart(k, s[j..]);
      BearerBodyChars(k, s, p, q, j);
    }
  }

  /** No scan brings a bearer credential to the front of a text that has none there. */
  lemma BearerCopyQuiet(k: Scanner, s: string)
    requires s != "" && Probe(Bearer, s).NoHit?
    ensures Probe(Bearer, CopyOne(k, s)).NoHit?
  {
    var out := CopyOne(k, s);
    if Probe(Bearer, out).Hit? {
      assert ProbeBearer(out).Hit? && ProbeBearer(s).NoHit?;
      hide ProbeBearer, Probe;
      var p, q' := BearerHasShape(out);
      BearerAnatomy(out, p, q');
      var q := BearerSameHead(k, s, p, q');
      BearerAnatomy(s, p, q);
      forall j | 1 <= j <= q && j < |s| ensures Probe(k, s[j..]).NoHit? {
        BearerQuietBody(k, s, p, q, j);
      }
      BearerSameToken(k, s, p, q);
    }
  }

  lemma BearerSameToken(k: Scanner, s: string, p: nat, q: nat)
    requires s != "" && BearerShape(s, p, q) && IsPlaceholder(Lower(s)[p..q])
    requires forall j :: 1 <= j <= q && j < |s| ==> Probe(k, s[j..]).NoHit?
    ensures ProbeBearer(CopyOne(k, s)).NoHit?
  {
    hide Probe, ProbeBearer;
    var out := CopyOne(k, s);
    if q < |s| {
      CopyOneFaithful(k, s, q);
      assert forall i :: 0 <= i <= q ==> out[i] == s[..q + 1][i] == s[i];
    } else {
      CopyOneWhole(k, s);
    }
    assert Lower(out)[p..q] == Lower(s)[p..q];
    BearerAnatomy(out, p, q);
  }

  // Credential URLs

  lemma SchemeText(s: string)
    requires SchemeLength(s) != 0
    ensures var e := SchemeLength(s);
            && 7 <= e <= |s| && s[0] == 'h' && s[e - 1] == '/'
            && (forall i :: 1 <= i < e ==> s[i] != 'h')
            && BracketFree(s[..e])
  {
    var e := SchemeLength(s);
    assert s[..e] == "https://" || s[..e] == "http://";
    assert forall i :: 0 <= i < e ==> s[..e][i] == s[i];
  }

  lemma SameScheme(s: string, t: string)
    requires SchemeLength(s) != 0 && s[..SchemeLength(s)] <= t
    ensures SchemeLength(t) == SchemeLength(s)
  {
    var e := SchemeLength(s);
    assert t[..e] == s[..e];
    assert t[4] == t[..e][4];
    if "https://" <= t { assert t[4] == "https://"[4]; }
  }

  /** Where `ProbeUrl` gave up: the first character that breaks the user or the password. */
  predicate UrlStop(s: string, e: nat, c: nat, z: nat) {
    && e == SchemeLength(s) != 0
    && e <= c <= z <= |s|
    && (forall i :: e <= i < c ==> IsUserChar(s[i]))
    && (c < |s| ==> !IsUserChar(s[c]))
    && (if c == e || c == |s| || s[c] != ':' then z == c else
        && c < z
        && (forall i :: c < i < z ==> IsPasswordChar(s[i]))
        && (z < |s| ==> !IsPasswordChar(s[z]))
        && (z == c + 1 || z == |s| || s[z] != '@'))
  }

  lemma UrlStopMeansNoHit(s: string, e: nat, c: nat, z: nat)
    requires UrlStop(s, e, c, z)
    ensures ProbeUrl(s).NoHit?
  {
    hide IsUserChar, IsPasswordChar, IsUrlSpace, Run;
    assert e <= |s|;
    RunFrom(IsUserChar, s, e, c);
    if c < z {
      RunFrom(IsPasswordChar, s, c + 1, z);
    }
  }

  lemma NoHitMeansUrlStop(s: string) returns (c: nat, z: nat)
    requires SchemeLength(s) != 0 && ProbeUrl(s).NoHit?
    ensures UrlStop(s, SchemeLength(s), c, z)
  {
    assert SchemeLength(s) <= |s|;
    hide IsUserChar, IsPasswordChar, IsUrlSpace, Run, SchemeLength;
    var e := SchemeLength(s);
    c := RunFacts(IsUserChar, s, e);
    z := c;
    if c != e && c < |s| && s[c] == ':' {
      z := RunFacts(IsPasswordChar, s, c + 1);
      assert z == c + 1 || z == |s| || s[z] != '@';
    }
    hide ProbeUrl;
  }

  /** A hit inside a rejected URL starts a scheme whose slashes lie at or after the stop. */
  lemma UrlHitKeepsStop(s: string, e: nat, c: nat, z: nat, j: nat)
    requires UrlStop(s, e, c, z) && 1 <= j <= z && j < |s| && ProbeUrl(s[j..]).Hit?
    ensures z < j + ProbeUrl(s[j..]).kept
  {
    var e' := SchemeLength(s[j..]);
    assert ProbeUrl(s[j..]).kept == e';
    hide ProbeUrl, SchemeLength;
    SchemeText(s);
    SchemeText(s[j..]);
    assert s[j] == s[j..][0] == 'h';
    assert s[j + e' - 1] == s[j..][e' - 1] == '/';
    assert e <= j;
    assert forall i :: e <= i < z ==> s[i] != '/';
  }

  lemma UrlCopyQuiet(s: string)
    requires s != "" && Probe(CredentialUrl, s).NoHit?
    ensures Probe(CredentialUrl, CopyOne(CredentialUrl, s)).NoHit?
  {
    var out := CopyOne(CredentialUrl, s);
    if SchemeLength(out) == 0 {
      return;
    }
    SchemeText(out);
    CopyOnePrefix(CredentialUrl, s, out[..SchemeLength(out)]);
    SameScheme(out, s);
    var e := SchemeLength(s);
    var c, z := NoHitMeansUrlStop(s);
    forall j | 1 <= j <= z && j < |s| && Probe(CredentialUrl, s[j..]).Hit?
      ensures z < j + Probe(CredentialUrl, s[j..]).kept
    {
      UrlHitKeepsStop(s, e, c, z, j);
    }
    UrlSameStop(s, e, c, z);
  }

  lemma UrlSameStop(s: string, e: nat, c: nat, z: nat)
    requires s != "" && UrlStop(s, e, c, z)
    requires SchemeLength(CopyOne(CredentialUrl, s)) == e
    requires forall j :: 1 <= j <= z && j < |s| && Probe(CredentialUrl, s[j..]).Hit?
               ==> z < j + Probe(CredentialUrl, s[j..]).kept
    ensures ProbeUrl(CopyOne(CredentialUrl, s)).NoHit?
  {
    hide Probe, ProbeUrl, Scan;
    var out := CopyOne(CredentialUrl, s);
    if z < |s| {
      CopyOneFaithful(CredentialUrl, s, z);
      assert forall i :: 0 <= i <= z ==> out[i] == s[..z + 1][i] == s[i];
    } else {
      CopyOneWhole(CredentialUrl, s);
    }
    UrlStopMeansNoHit(out, e, c, z);
  }

  // Secret assignments

  lemma KeyText(k: string)
    requires IsKey(k)
    ensures 5 <= |k| && (k[0] == 'a' || k[0] == 'p' || k[0] == 's' || k[0] == 't')
    ensures match k[0] case 'a' => k[1] == 'p' || k[1] == 'u' case 'p' => k[1] == 'a' case 's' => k[1] == 'e' case _ => k[1] == 'o'
    ensures forall i :: 0 <= i < |k| ==> k[i] != ':' && k[i] != '=' && k[i] != '[' && k[i] != ']' && k[i] != 'b'
  {
  }

  lemma KeyUnique(k: string, t: string)
    requires IsKey(k) && k <= t
    ensures KeyAt(t) == k
  {
    var k' := KeyAt(t);
    assert IsKey(k') by { var i :| 0 <= i < |KEYS| && KEYS[i] == k; }
    KeyText(k);
    KeyText(k');
    assert k[0] == t[0] == k'[0] && k[1] == t[1] == k'[1] && k[3] == t[3] == k'[3];
  }

  lemma NoKeyEndsInKey(k: string, k': string)
    requires IsKey(k) && IsKey(k') && |k'| < |k|
    ensures k[|k| - |k'|..] != k'
  {
    var o := |k| - |k'|;
    assert k[o..][0] == k[o] && k[o..][1] == k[o + 1];
  }

  /** The key of an assignment, lower-cased, and its separator. */
  predicate KeyShape(s: string, key: string) {
    && IsKey(key)
    && |key| < |s|
    && (forall i :: 0 <= i < |key| ==> LowerChar(s[i]) == key[i])
    && (s[|key|] == ':' || s[|key|] == '=')
  }

  lemma KeyShapeProbe(s: string, key: string)
    requires KeyShape(s, key)
    ensures KeyAt(Lower(s)) == key
    ensures var v := ValueStart(s, |key|);
            var n := Run(IsValueChar, s[v..]);
            ProbeAssignment(s) == if n == 0 then NoHit else Hit(v, v + n, v + n)
  {
    assert Lower(s)[..|key|] == key;
    KeyUnique(key, Lower(s));
    KeyText(key);
  }

  lemma HitHasKeyShape(s: string) returns (key: string)
    requires ProbeAssignment(s).Hit?
    ensures KeyShape(s, key) && ProbeAssignment(s).kept == ValueStart(s, |key|)
    ensures key == KeyAt(Lower(s))
  {
    key := KeyAt(Lower(s));
    assert forall i :: 0 <= i < |key| ==> Lower(s)[i] == key[i];
  }

  lemma NoKeyInsideKey(s: string, key: string, key': string, j: nat)
    requires KeyShape(s, key) && 1 <= j < |key| && IsKey(key')
    ensures !KeyShape(s[j..], key')
  {
    if KeyShape(s[j..], key') {
      SeparatorsAreNotLetters(s, key);
      SeparatorsAreNotLetters(s[j..], key');
      assert j + |key'| == |key|;
      assert key[j..] == key' by {
        assert forall i :: 0 <= i < |key'| ==> s[j..][i] == s[j + i];
      }
      NoKeyEndsInKey(key, key');
    }
  }

  lemma SeparatorText(s: string, key: string, j: nat)
    requires KeyShape(s, key) && |key| <= j < |s| && j <= ValueStart(s, |key|)
    requires j == ValueStart(s, |key|) ==> !IsValueChar(s[j])
    ensures var c := LowerChar(s[j]); c != 'a' && c != 'p' && c != 's' && c != 't'
  {
    hide IsKey;
  }

  /** Between the start of a rejected assignment and its value start, nothing else can match. */
  lemma AssignmentQuietBody(s: string, key: string, j: nat)
    requires KeyShape(s, key) && 1 <= j < |s| && j <= ValueStart(s, |key|)
    requires j == ValueStart(s, |key|) ==> !IsValueChar(s[j])
    ensures ProbeAssignment(s[j..]).NoHit?
  {
    if ProbeAssignment(s[j..]).Hit? {
      var key' := HitHasKeyShape(s[j..]);
      hide ProbeAssignment, KeyAt, IsKey, Lower, ValueStart, IsValueChar;
      if j < |key| {
        NoKeyInsideKey(s, key, key', j);
      } else {
        KeyText(key');
        SeparatorText(s, key, j);
      }
    }
  }

  lemma SeparatorsAreNotLetters(s: string, key: string)
    requires KeyShape(s, key)
    ensures forall i :: 0 <= i < |key| ==> s[i] != ':' && s[i] != '=' && s[i] != '[' && s[i] != ']'
  {
    KeyText(key);
    forall i | 0 <= i < |key| ensures s[i] != ':' && s[i] != '=' && s[i] != '[' && s[i] != ']' {
      assert LowerChar(s[i]) == key[i];
    }
  }

  lemma AssignmentCopyQuiet(s: string)
    requires s != "" && Probe(Assignment, s).NoHit?
    ensures Probe(Assignment, CopyOne(Assignment, s)).NoHit?
  {
    var out := CopyOne(Assignment, s);
    if Probe(Assignment, out).Hit? {
      var key := HitHasKeyShape(out);
      assert ProbeAssignment(s).NoHit?;
      hide ProbeAssignment, Scan, KeyAt;
      AssignmentSameKey(s, key);
      AssignmentSameValue(s, key);
    }
  }

  lemma AssignmentSameKey(s: string, key: string)
    requires s != "" && KeyShape(CopyOne(Assignment, s), key)
    ensures KeyShape(s, key)
  {
    hide Probe, Scan;
    var out := CopyOne(Assignment, s);
    var w := out[..|key| + 1];
    SeparatorsAreNotLetters(out, key);
    CopyOnePrefix(Assignment, s, w);
    assert forall i :: 0 <= i <= |key| ==> w[i] == out[i] == s[i];
  }

  lemma AssignmentSameValue(s: string, key: string)
    requires s != "" && KeyShape(s, key) && KeyShape(CopyOne(Assignment, s), key)
    requires ProbeAssignment(s).NoHit?
    ensures ProbeAssignment(CopyOne(Assignment, s)).NoHit?
  {
    hide ProbeAssignment, Scan, KeyAt, IsKey;
    var out := CopyOne(Assignment, s);
    var v := ValueStart(s, |key|);
    KeyShapeProbe(s, key);
    KeyShapeProbe(out, key);
    forall j | 1 <= j <= v && j < |s| ensures Probe(Assignment, s[j..]).NoHit? {
      assert j == v ==> s[v..][0] == s[v];
      AssignmentQuietBody(s, key, j);
    }
    hide Probe;
    if v < |s| {
      CopyOneFaithful(Assignment, s, v);
      assert forall i :: 0 <= i <= v ==> out[i] == s[..v + 1][i] == s[i];
      assert s[v..][0] == s[v] && out[v..][0] == out[v];
    } else {
      CopyOneWhole(Assignment, s);
    }
  }

  // The scanners as a family

  lemma CopyQuiet(k: Scanner, s: string)
    requires s != "" && Probe(k, s).NoHit?
    ensures Probe(k, CopyOne(k, s)).NoHit?
  {
    hide Probe;
    match k {
      case Bearer => BearerCopyQuiet(Bearer, s);
      case CredentialUrl => UrlCopyQuiet(s);
      case Assignment => AssignmentCopyQuiet(s);
      case _ => TokenCopyQuiet(k, s);
    }
  }

  lemma MarkerStart(rest: string, i: nat)
    requires i < 10
    ensures var t := (REDACTED + rest)[i..];
            t != "" && t[0] in REDACTED && (t[0] == 'A' ==> 2 <= |t| && t[1] == 'C')
  {
    var t := (REDACTED + rest)[i..];
    assert t[0] == REDACTED[i] && (i < 9 ==> t[1] == REDACTED[i + 1]);
  }

  lemma MarkerQuiet(k: Scanner, rest: string, i: nat)
    requires k != Assignment && i < 10
    ensures Probe(k, (REDACTED + rest)[i..]).NoHit?
  {
    hide Probe, ProbeUrl;
    var t := (REDACTED + rest)[i..];
    MarkerStart(rest, i);
    if k == Bearer {
      NoBNoBearer(t);
    } else if k == CredentialUrl {
      NoSchemeNoHit(t);
    } else {
      TokenMarkerQuiet(k, t);
    }
  }

  lemma TokenMarkerQuiet(k: Scanner, t: string)
    requires IsTokenScanner(k)
    requires t != "" && t[0] in REDACTED && (t[0] == 'A' ==> 2 <= |t| && t[1] == 'C')
    ensures Probe(k, t).NoHit?
  {
    hide Probe;
    HitIsSecret(k, t);
    if Probe(k, t).Hit? {
      SecretStart(k, t[..SecretLength(k)]);
    }
  }

  lemma UrlHitShape(s: string)
    requires ProbeUrl(s).Hit?
    ensures var h := ProbeUrl(s); h.kept == SchemeLength(s) != 0 && s[h.cut..h.end] == "@"
  {
  }

  lemma UrlReplacementQuiet(s: string, rest: string, i: nat)
    requires ProbeUrl(s).Hit? && i < |Replacement(ProbeUrl(s), s)|
    ensures ProbeUrl((Replacement(ProbeUrl(s), s) + rest)[i..]).NoHit?
  {
    UrlHitShape(s);
    hide ProbeUrl, SchemeLength;
    var e := ProbeUrl(s).kept;
    var t := s[..e] + REDACTED + "@" + rest;
    assert t == Replacement(ProbeUrl(s), s) + rest;
    SchemeText(s);
    if i == 0 {
      assert t[0..] == t;
      UrlMarkerQuiet(s, rest);
    } else {
      assert t[i] != 'h' by {
        if i < e { assert t[i] == s[i]; } else if i < e + 10 { assert t[i] == REDACTED[i - e]; }
      }
      NoSchemeNoHit(t[i..]);
    }
  }

  /** After the scheme comes the marker as a user, and then no password. */
  lemma UrlMarkerQuiet(s: string, rest: string)
    requires SchemeLength(s) != 0
    ensures ProbeUrl(s[..SchemeLength(s)] + REDACTED + "@" + rest).NoHit?
  {
    hide ProbeUrl;
    var e := SchemeLength(s);
    var t := s[..e] + REDACTED + "@" + rest;
    SameScheme(s, t);
    hide SchemeLength;
    assert t[e..e + 10] == REDACTED && t[e + 10] == '@';
    MarkerIsUser(t, e);
    UrlStopMeansNoHit(t, e, e + 10, e + 10);
  }

  lemma MarkerIsUser(t: string, e: nat)
    requires e + 10 < |t| && t[e..e + 10] == REDACTED
    ensures forall j :: e <= j < e + 10 ==> IsUserChar(t[j])
  {
    forall j | e <= j < e + 10 ensures IsUserChar(t[j]) {
      assert t[j] == t[e..e + 10][j - e] == REDACTED[j - e];
    }
  }

  lemma NoSchemeNoHit(t: string)
    requires t != "" && t[0] != 'h'
    ensures Probe(CredentialUrl, t).NoHit? && ProbeUrl(t).NoHit?
  {
  }

  lemma ReplacementQuiet(k: Scanner, s: string, rest: string, i: nat)
    requires k != Assignment && Probe(k, s).Hit? && i < |Replacement(Probe(k, s), s)|
    ensures Probe(k, (Replacement(Probe(k, s), s) + rest)[i..]).NoHit?
  {
    if k == CredentialUrl {
      UrlReplacementQuiet(s, rest, i);
    } else {
      assert Replacement(Probe(k, s), s) == REDACTED;
      MarkerQuiet(k, rest, i);
    }
  }

  /** Nothing is left in a scanner's own output that it would react to. */
  lemma {:induction false} ScanQuiet(k: Scanner, s: string)
    requires k != Assignment
    ensures Quiet(k, Scan(k, s))
    decreases |s|
  {
    hide Probe;
    if s == "" {
      return;
    }
    var out := Scan(k, s);
    var h := Probe(k, s);
    var rest := Scan(k, if h.Hit? then s[h.end..] else s[1..]);
    ScanQuiet(k, if h.Hit? then s[h.end..] else s[1..]);
    var n := if h.Hit? then |Replacement(h, s)| else 1;
    forall i | 0 <= i < |out| ensures Probe(k, out[i..]).NoHit? {
      if n <= i {
        assert out[i..] == rest[i - n..];
      } else if h.Hit? {
        ReplacementQuiet(k, s, rest, i);
      } else {
        CopyQuiet(k, s);
        assert out[i..] == CopyOne(k, s);
      }
    }
  }

  lemma SameValueStart(s: string, t: string, key: string, v: nat)
    requires KeyShape(s, key) && v == ValueStart(s, |key|)
    requires v < |t| && !IsBlank(t[v]) && !IsQuote(t[v])
    requires forall i :: 0 <= i < v ==> t[i] == s[i]
    ensures KeyShape(t, key) && ValueStart(t, |key|) == v
  {
    hide IsKey;
  }

  /** An assignment already redacted is found again and rewritten to itself. */
  lemma AssignmentHitAgain(s: string, key: string, v: nat, rest: string)
    requires KeyShape(s, key) && v == ValueStart(s, |key|)
    requires rest != "" ==> !IsValueChar(rest[0])
    ensures ProbeAssignment(s[..v] + REDACTED + rest) == Hit(v, v + 10, v + 10)
  {
    hide ProbeAssignment, KeyAt, IsKey;
    var t := s[..v] + REDACTED + rest;
    MarkerIsValue(s[..v], rest);
    SameValueStart(s, t, key, v);
    KeyShapeProbe(t, key);
  }

  lemma MarkerIsValue(a: string, rest: string)
    requires rest != "" ==> !IsValueChar(rest[0])
    ensures Run(IsValueChar, (a + REDACTED + rest)[|a|..]) == 10
  {
    var t := a + REDACTED + rest;
    assert t[|a|..] == REDACTED + rest;
    assert forall i :: 0 <= i < 10 ==> IsValueChar(REDACTED[i]);
    RunIs(IsValueChar, REDACTED + rest, 10);
  }

  lemma TerminatorFirst(s: string, n: nat)
    requires n <= |s| && (n < |s| ==> !IsValueChar(s[n]))
    ensures var rest := Scan(Assignment, s[n..]); rest != "" ==> !IsValueChar(rest[0])
  {
    if n < |s| {
      assert s[n..][0] == s[n];
      if ProbeAssignment(s[n..]).Hit? {
        var key := HitHasKeyShape(s[n..]);
        KeyText(key);
      }
    }
  }

  /** Running any one scanner a second time changes nothing, on every text. */
  lemma {:induction false} Idempotent(k: Scanner, s: string)
    ensures Scan(k, Scan(k, s)) == Scan(k, s)
    decreases |s|
  {
    if k != Assignment {
      ScanQuiet(k, s);
      QuietScan(k, Scan(k, s));
    } else if s != "" {
      AssignmentIdempotent(s);
    }
  }

  lemma {:induction false} AssignmentIdempotent(s: string)
    ensures Scan(Assignment, Scan(Assignment, s)) == Scan(Assignment, s)
    decreases |s|
  {
    if s == "" {
      return;
    }
    var h := ProbeAssignment(s);
    if h.Hit? {
      AssignmentIdempotent(s[h.end..]);
      AssignmentRescan(s);
    } else {
      AssignmentCopyQuiet(s);
      AssignmentIdempotent(s[1..]);
      hide ProbeAssignment;
      assert Scan(Assignment, s) == CopyOne(Assignment, s);
      assert CopyOne(Assignment, s)[1..] == Scan(Assignment, s[1..]);
    }
  }

  lemma AssignmentRescan(s: string)
    requires s != "" && Probe(Assignment, s).Hit?
    requires var rest := Scan(Assignment, s[Probe(Assignment, s).end..]); Scan(Assignment, rest) == rest
    ensures Scan(Assignment, Scan(Assignment, s)) == Scan(Assignment, s)
  {
    hide Scan;
    var h := ProbeAssignment(s);
    var key := HitHasKeyShape(s);
    KeyShapeProbe(s, key);
    var end := RunFacts(IsValueChar, s, h.kept);
    assert Probe(Assignment, s) == h && h.cut == h.end == end;
    hide ProbeAssignment, KeyAt, IsKey;
    var rest := Scan(Assignment, s[h.end..]);
    TerminatorFirst(s, h.end);
    AssignmentHitAgain(s, key, h.kept, rest);
    RescanHit(s, h, rest);
  }

  lemma RescanHit(s: string, h: Hit, rest: string)
    requires s != "" && Probe(Assignment, s) == h && h.Hit? && h.cut == h.end
    requires rest == Scan(Assignment, s[h.end..]) == Scan(Assignment, rest)
    requires Probe(Assignment, s[..h.kept] + REDACTED + rest) == Hit(h.kept, h.kept + 10, h.kept + 10)
    ensures Scan(Assignment, Scan(Assignment, s)) == Scan(Assignment, s)
  {
    hide Probe, Scan;
    var out := s[..h.kept] + REDACTED + rest;
    ScanAtHit(Assignment, s);
    ScanAtHit(Assignment, out);
    var n := h.kept + 10;
    assert s[h.cut..h.end] == "" && s[..h.kept] + REDACTED + "" == s[..h.kept] + REDACTED;
    assert out[n..n] == "" && out[n..] == rest && out[..h.kept] == s[..h.kept];
  }

  lemma ScanAtHit(k: Scanner, s: string)
    requires Probe(k, s).Hit?
    ensures var h := Probe(k, s); Scan(k, s) == s[..h.kept] + REDACTED + s[h.cut..h.end] + Scan(k, s[h.end..])
  {
    hide Probe;
  }
}
