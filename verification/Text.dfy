/** Character classes and string scanning shared by the other modules. */
module Text {

  /** What JavaScript's `\w` accepts. */
  predicate IsWord(c: char) {
    'a' <= c <= 'z' || 'A' <= c <= 'Z' || '0' <= c <= '9' || c == '_'
  }

  /** ASCII lower-casing, character by character. */
  function LowerChar(c: char): char {
    if 'A' <= c <= 'Z' then (c as int + 32) as char else c
  }

  function Lower(s: string): (r: string)
    ensures |r| == |s|
    ensures forall i :: 0 <= i < |s| ==> r[i] == LowerChar(s[i])
  {
    seq(|s|, i requires 0 <= i < |s| => LowerChar(s[i]))
  }

  /** Length of the longest prefix of `s` whose characters all satisfy `p`. */
  function Run(p: char -> bool, s: string): (n: nat)
    ensures n <= |s|
    ensures forall i :: 0 <= i < n ==> p(s[i])
    ensures n < |s| ==> !p(s[n])
  {
    if s == "" || !p(s[0]) then 0 else 1 + Run(p, s[1..])
  }

  /** The three facts `Run` promises determine it. */
  lemma RunIs(p: char -> bool, s: string, n: nat)
    requires n <= |s|
    requires forall i :: 0 <= i < n ==> p(s[i])
    requires n < |s| ==> !p(s[n])
    ensures Run(p, s) == n
  {
  }

  /** `RunIs` for the run that starts at index `a` of a longer text. */
  lemma RunFrom(p: char -> bool, s: string, a: nat, b: nat)
    requires a <= b <= |s|
    requires forall i :: a <= i < b ==> p(s[i])
    requires b < |s| ==> !p(s[b])
    ensures Run(p, s[a..]) == b - a
  {
    RunIs(p, s[a..], b - a);
  }

  lemma RunFacts(p: char -> bool, s: string, a: nat) returns (b: nat)
    requires a <= |s|
    ensures b == a + Run(p, s[a..]) && a <= b <= |s|
    ensures forall i :: a <= i < b ==> p(s[i])
    ensures b < |s| ==> !p(s[b])
  {
    b := a + Run(p, s[a..]);
    forall i | a <= i < b ensures p(s[i]) {
      assert s[a..][i - a] == s[i];
    }
  }

  // Decimal numbers

  predicate Digits(s: string) {
    forall i :: 0 <= i < |s| ==> '0' <= s[i] <= '9'
  }

  function Decimal(n: nat): (s: string)
    ensures s != "" && Digits(s)
  {
    var last := [('0' as int + n % 10) as char];
    if n < 10 then last else Decimal(n / 10) + last
  }

  function NatOf(s: string): nat
    requires Digits(s)
  {
    if s == "" then 0 else 10 * NatOf(s[..|s| - 1]) + (s[|s| - 1] as int - '0' as int)
  }

  lemma {:induction false} NoLeadingZero(n: nat)
    ensures |Decimal(n)| == 1 || Decimal(n)[0] != '0'
    ensures 0 < n ==> Decimal(n)[0] != '0'
  {
    if 10 <= n { NoLeadingZero(n / 10); }
  }

  lemma {:induction false} NatOfDecimal(n: nat)
    ensures NatOf(Decimal(n)) == n
  {
    var s := Decimal(n);
    if n < 10 {
      assert s[..|s| - 1] == "";
    } else {
      NatOfDecimal(n / 10);
      assert s[..|s| - 1] == Decimal(n / 10);
    }
  }

  /** `w` is a substring of `t`. */
  ghost predicate Occurs(w: string, t: string) {
    exists i :: 0 <= i <= |t| && w <= t[i..]
  }

  // JavaScript white space, trimming and splitting

  predicate IsSpace(c: char) {
    || '\t' <= c <= '\r' || c == ' ' || c == '\U{A0}' || c == '\U{1680}'
    || '\U{2000}' <= c <= '\U{200A}' || c == '\U{2028}' || c == '\U{2029}'
    || c == '\U{202F}' || c == '\U{205F}' || c == '\U{3000}' || c == '\U{FEFF}'
  }

  function TrimStart(s: string): (r: string)
    ensures r == "" || !IsSpace(r[0])
  {
    s[Run(IsSpace, s)..]
  }

  function TrimEnd(s: string): (r: string)
    ensures r <= s
    ensures r == "" || !IsSpace(r[|r| - 1])
  {
    if s != "" && IsSpace(s[|s| - 1]) then TrimEnd(s[..|s| - 1]) else s
  }

  function Trim(s: string): (r: string)
    ensures r == "" || (!IsSpace(r[0]) && !IsSpace(r[|r| - 1]))
  {
    TrimEnd(TrimStart(s))
  }

  /** Text that trimming leaves alone. */
  predicate Trimmed(s: string) {
    s == "" || (!IsSpace(s[0]) && !IsSpace(s[|s| - 1]))
  }

  lemma TrimTrimmed(s: string)
    requires Trimmed(s)
    ensures TrimStart(s) == s && Trim(s) == s
  {
    if s != "" { RunIs(IsSpace, s, 0); }
  }

  lemma {:induction false} TrimEndIs(s: string) returns (b: string)
    ensures s == TrimEnd(s) + b && forall i :: 0 <= i < |b| ==> IsSpace(b[i])
  {
    b := "";
    if s != "" && IsSpace(s[|s| - 1]) {
      var last := s[|s| - 1];
      b := TrimEndIs(s[..|s| - 1]);
      assert s == s[..|s| - 1] + [last];
      b := b + [last];
    }
  }

  /** Trimming takes away white space at both ends, and all of it. */
  lemma TrimIs(s: string) returns (a: string, b: string)
    ensures s == a + Trim(s) + b && Trimmed(Trim(s))
    ensures forall i :: 0 <= i < |a| ==> IsSpace(a[i])
    ensures forall i :: 0 <= i < |b| ==> IsSpace(b[i])
  {
    hide TrimEnd;
    var n := Run(IsSpace, s);
    a := s[..n];
    b := TrimEndIs(s[n..]);
  }

  /** First index at which `sep` occurs in `s`, or -1. */
  function Find(s: string, sep: string): (i: int)
    ensures -1 <= i <= |s|
    ensures 0 <= i ==> sep <= s[i..]
    ensures forall j :: 0 <= j < (if i < 0 then |s| + 1 else i) ==> !(sep <= s[j..])
  {
    if sep <= s then 0
    else if s == "" then -1
    else
      var r := Find(s[1..], sep);
      assert forall j :: 1 <= j <= |s| ==> s[1..][j - 1..] == s[j..];
      assert s[0..] == s;
      if r < 0 then -1 else r + 1
  }

  lemma FindIs(s: string, sep: string, i: nat)
    requires i <= |s| && sep <= s[i..]
    requires forall j :: 0 <= j < i ==> !(sep <= s[j..])
    ensures Find(s, sep) == i
  {
  }

  /** `s.split(sep)`: the pieces between the leftmost non-overlapping separators. */
  function Split(s: string, sep: string): (pieces: seq<string>)
    requires sep != ""
    ensures pieces != []
    decreases |s|
  {
    var i := Find(s, sep);
    if i < 0 then [s] else [s[..i]] + Split(s[i + |sep|..], sep)
  }

  lemma FindAppend(x: string, y: string, sep: string)
    requires sep != "" && 0 <= Find(x, sep)
    ensures Find(x + y, sep) == Find(x, sep)
  {
    var i := Find(x, sep);
    assert (x + y)[i..] == x[i..] + y;
    forall j | 0 <= j < i ensures !(sep <= (x + y)[j..]) {
      assert (x + y)[j..] == x[j..] + y;
      assert |sep| <= |x[j..]|;
      assert !(sep <= x[j..]);
    }
    FindIs(x + y, sep, i);
  }

  /** Splitting can be resumed: the last piece of a split is all that the rest of the text needs. */
  lemma {:induction false} SplitAppend(x: string, y: string, sep: string)
    requires sep != ""
    ensures var p := Split(x, sep);
            Split(x + y, sep) == p[..|p| - 1] + Split(p[|p| - 1] + y, sep)
    decreases |x|
  {
    hide Find, Split;
    var i := Find(x, sep);
    if i < 0 {
      SplitNone(x, sep);
    } else {
      FindAppend(x, y, sep);
      var rest := x[i + |sep|..];
      SplitAppend(rest, y, sep);
      SplitFirst(x, sep);
      SplitFirst(x + y, sep);
      assert (x + y)[..i] == x[..i] && (x + y)[i + |sep|..] == rest + y;
    }
  }

  /** A piece that `sep` does not touch is split off whole. */
  lemma SplitPiece(piece: string, sep: string, rest: string)
    requires sep != "" && forall i :: 0 <= i < |piece| ==> piece[i] != sep[0]
    ensures Split(piece + sep + rest, sep) == [piece] + Split(rest, sep)
  {
    var t := piece + sep + rest;
    assert t[|piece|..] == sep + rest;
    forall j | 0 <= j < |piece| ensures !(sep <= t[j..]) {
      assert t[j..][0] == piece[j];
    }
    FindIs(t, sep, |piece|);
    assert t[..|piece|] == piece && t[|piece| + |sep|..] == rest;
  }

  lemma SplitWhole(piece: string, sep: string)
    requires sep != "" && forall i :: 0 <= i < |piece| ==> piece[i] != sep[0]
    ensures Split(piece, sep) == [piece]
  {
    forall j | 0 <= j <= |piece| ensures !(sep <= piece[j..]) {
      if j < |piece| { assert piece[j..][0] == piece[j]; }
    }
  }

  lemma SplitNone(s: string, sep: string)
    requires sep != "" && Find(s, sep) < 0
    ensures Split(s, sep) == [s]
  {
    hide Find;
  }

  lemma SplitFirst(s: string, sep: string)
    requires sep != "" && 0 <= Find(s, sep)
    ensures Split(s, sep) == [s[..Find(s, sep)]] + Split(s[Find(s, sep) + |sep|..], sep)
  {
    hide Find;
  }
}
