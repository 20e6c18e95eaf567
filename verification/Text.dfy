// Scanning text for delimiters: the first of one or two characters from a
// position on, and blanks at either end, as the loops of the parsers look for
// them.
module Text {
  // The position of the first c at or after i, or the end.
  function ScanTo(s: string, i: nat, c: char): (r: nat)
    requires i <= |s|
    ensures i <= r <= |s|
    decreases |s| - i
  {
    if i == |s| || s[i] == c then i else ScanTo(s, i + 1, c)
  }

  lemma {:induction false} ScanIs(s: string, i: nat, c: char, n: nat)
    requires i <= n <= |s| && (n < |s| ==> s[n] == c)
    requires forall k :: i <= k < n ==> s[k] != c
    ensures ScanTo(s, i, c) == n
    decreases n - i
  {
    if i < n { ScanIs(s, i + 1, c, n); }
  }

  function ScanToEither(s: string, i: nat, c: char, d: char): (r: nat)
    requires i <= |s|
    ensures i <= r <= |s|
    decreases |s| - i
  {
    if i == |s| || s[i] == c || s[i] == d then i else ScanToEither(s, i + 1, c, d)
  }

  lemma {:induction false} ScanEitherIs(s: string, i: nat, c: char, d: char, n: nat)
    requires i <= n <= |s| && (n < |s| ==> s[n] == c || s[n] == d)
    requires forall k :: i <= k < n ==> s[k] != c && s[k] != d
    ensures ScanToEither(s, i, c, d) == n
    decreases n - i
  {
    if i < n { ScanEitherIs(s, i + 1, c, d, n); }
  }

  function SkipSpaces(s: string, i: nat): (r: nat)
    requires i <= |s|
    ensures i <= r <= |s|
    decreases |s| - i
  {
    if i == |s| || s[i] != ' ' then i else SkipSpaces(s, i + 1)
  }

  function Trim(s: string): string {
    if s != "" && s[|s| - 1] == ' ' then Trim(s[..|s| - 1]) else s
  }
}
