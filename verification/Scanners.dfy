/**
 * The eight secret scanners of the content sanitizer.
 *
 * Every scanner looks only forward from its current index, so what it does at
 * index `i` of a text is a function of the suffix that starts there.  `Probe`
 * is that function.  A `Hit` keeps the first `kept` characters of the suffix,
 * writes the redaction marker, copies `s[cut..end]` and resumes at `end`.
 */
module Scanners {
  import opened Text

  const REDACTED: string := "[REDACTED]"

  datatype Scanner = Bearer | Linear | Sk | Slack | Aws | GitHub | CredentialUrl | Assignment

  datatype Hit = NoHit | Hit(kept: nat, cut: nat, end: nat)

  predicate IsBearerChar(c: char) {
    IsWord(c) || c == '.' || c == '~' || c == '+' || c == '/' || c == '-'
  }

  predicate IsSlackChar(c: char) {
    '0' <= c <= '9' || 'A' <= c <= 'Z' || 'a' <= c <= 'z' || c == '-'
  }

  predicate IsAwsChar(c: char) {
    '0' <= c <= '9' || 'A' <= c <= 'Z'
  }

  /** The ASCII part of `\s`. */
  predicate IsUrlSpace(c: char) {
    c == ' ' || '\t' <= c <= '\r'
  }

  predicate IsUserChar(c: char) {
    !(c == '/' || c == ':' || c == '@' || IsUrlSpace(c))
  }

  predicate IsPasswordChar(c: char) {
    !(c == '/' || c == '@' || IsUrlSpace(c))
  }

  predicate IsBlank(c: char) {
    c == ' ' || c == '\t' || c == '\n' || c == '\r'
  }

  predicate IsEquals(c: char) {
    c == '='
  }

  predicate IsQuote(c: char) {
    c == '"' || c == '\''
  }

  /** A character that does not end the value of a `key: value` assignment. */
  predicate IsValueChar(c: char) {
    !(IsQuote(c) || c == ',' || c == '}' || IsBlank(c))
  }

  const KEYS: seq<string> :=
    ["api_key", "api-key", "apikey", "authorization", "password", "secret", "token"]

  predicate IsKey(k: string) {
    k in KEYS
  }

  /** The first secret key that starts the (lower-cased) text, or "" if none does. */
  function KeyAt(s: string): (k: string)
    ensures k != "" ==> k in KEYS && k <= s
    ensures k == "" ==> forall i :: 0 <= i < |KEYS| ==> !(KEYS[i] <= s)
  {
    if "api_key" <= s then KEYS[0]
    else if "api-key" <= s then KEYS[1]
    else if "apikey" <= s then KEYS[2]
    else if "authorization" <= s then KEYS[3]
    else if "password" <= s then KEYS[4]
    else if "secret" <= s then KEYS[5]
    else if "token" <= s then KEYS[6]
    else ""
  }

  function TokenHit(n: nat): Hit { Hit(0, n, n) }

  /** Bearer values that are not credentials. */
  predicate IsPlaceholder(token: string) {
    token == "null" || token == "undefined"
  }

  function ProbeBearer(s: string): Hit {
    if !("bearer" <= Lower(s)) then NoHit else
    var start := 6 + Run(IsBlank, s[6..]);
    if start == 6 then NoHit else
    var stop := start + Run(IsBearerChar, s[start..]);
    var token := Lower(s)[start..stop];
    if IsPlaceholder(token) then NoHit else
    var end := stop + Run(IsEquals, s[stop..]);
    if end == start then NoHit else TokenHit(end)
  }

  function SchemeLength(s: string): nat {
    if "https://" <= s then 8 else if "http://" <= s then 7 else 0
  }

  function ProbeUrl(s: string): Hit {
    var scheme := SchemeLength(s);
    if scheme == 0 then NoHit else
    var colon := scheme + Run(IsUserChar, s[scheme..]);
    if colon == scheme || colon == |s| || s[colon] != ':' then NoHit else
    var at := colon + 1 + Run(IsPasswordChar, s[colon + 1..]);
    if at == colon + 1 || at == |s| || s[at] != '@' then NoHit else
    Hit(scheme, at, at + 1)
  }

  /** Where the value starts: one blank and one quote are skipped after the separator at `sep`. */
  function ValueStart(s: string, sep: nat): (v: nat)
    requires sep < |s|
    ensures sep < v <= |s|
  {
    var a := if sep + 1 < |s| && IsBlank(s[sep + 1]) then sep + 2 else sep + 1;
    if a < |s| && IsQuote(s[a]) then a + 1 else a
  }

  function ProbeAssignment(s: string): Hit {
    var sep := |KeyAt(Lower(s))|;
    if sep == 0 || sep == |s| || (s[sep] != ':' && s[sep] != '=') then NoHit else
    var v := ValueStart(s, sep);
    var end := v + Run(IsValueChar, s[v..]);
    if end == v then NoHit else Hit(v, end, end)
  }

  function Probe(k: Scanner, s: string): (h: Hit)
    ensures h.Hit? ==> h.kept < h.end <= |s| && h.kept <= h.cut <= h.end
  {
    match k
    case Bearer => ProbeBearer(s)
    case Linear =>
      if "lin_api_" <= s && 0 < Run(IsWord, s[8..])
      then TokenHit(8 + Run(IsWord, s[8..])) else NoHit
    case Sk =>
      if "sk-" <= s && 20 <= Run(IsWord, s[3..])
      then TokenHit(3 + Run(IsWord, s[3..])) else NoHit
    case Slack =>
      if "xox" <= s && 5 <= |s| && s[3] in "baprs" && s[4] == '-' && 0 < Run(IsSlackChar, s[5..])
      then TokenHit(5 + Run(IsSlackChar, s[5..])) else NoHit
    case Aws =>
      if "AKIA" <= s && 16 <= Run(IsAwsChar, s[4..]) then TokenHit(20) else NoHit
    case GitHub =>
      if "ghp_" <= s && 36 <= Run(IsWord, s[4..]) then TokenHit(40) else NoHit
    case CredentialUrl => ProbeUrl(s)
    case Assignment => ProbeAssignment(s)
  }

  /** What a hit on `s` writes. */
  function Replacement(h: Hit, s: string): string
    requires h.Hit? && h.kept <= h.cut <= h.end <= |s|
  {
    s[..h.kept] + REDACTED + s[h.cut..h.end]
  }

  /** The whole scan: hits are replaced, every other character is copied. */
  function Scan(k: Scanner, s: string): string
    decreases |s|
  {
    if s == "" then "" else
    var h := Probe(k, s);
    if h.Hit? then Replacement(h, s) + Scan(k, s[h.end..])
    else [s[0]] + Scan(k, s[1..])
  }
}
