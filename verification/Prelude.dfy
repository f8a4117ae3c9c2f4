/** Small shared vocabulary: optional values, durations and the string helpers the services use. */
module Prelude {

  datatype Option<+T> = None | Some(value: T)

  /** Instants and durations are whole nanoseconds, as in Go's time package. */
  const SECOND: int := 1_000_000_000
  const MINUTE: int := 60 * SECOND

  function Min(a: int, b: int): int {
    if a <= b then a else b
  }

  function Max(a: int, b: int): int {
    if a <= b then b else a
  }

  /** strings.ToLower on the ASCII alphabet that device names and MAC addresses are validated against. */
  function LowerChar(c: char): char {
    if 'A' <= c <= 'Z' then c - 'A' + 'a' else c
  }

  function Lower(s: string): string {
    seq(|s|, i requires 0 <= i < |s| => LowerChar(s[i]))
  }

  /** strings.EqualFold on the same alphabet. */
  predicate EqualFold(s: string, t: string) {
    Lower(s) == Lower(t)
  }

  /** strings.ReplaceAll for one-character arguments. */
  function ReplaceChar(s: string, from: char, to: char): string {
    seq(|s|, i requires 0 <= i < |s| => if s[i] == from then to else s[i])
  }

  predicate IsSpace(c: char) {
    c in {' ', '\t', '\n', '\U{0B}', '\U{0C}', '\r', '\U{85}', '\U{A0}'}
  }

  function TrimLeft(s: string): string {
    if s != [] && IsSpace(s[0]) then TrimLeft(s[1..]) else s
  }

  function TrimRight(s: string): string {
    if s != [] && IsSpace(s[|s| - 1]) then TrimRight(s[..|s| - 1]) else s
  }

  /** strings.TrimSpace. */
  function TrimSpace(s: string): string {
    TrimRight(TrimLeft(s))
  }

  /** A string that TrimSpace leaves alone. */
  predicate Trimmed(s: string) {
    s == [] || (!IsSpace(s[0]) && !IsSpace(s[|s| - 1]))
  }

  lemma {:induction false} TrimRightKeepsHead(s: string)
    ensures TrimRight(s) <= s
    ensures TrimRight(s) == [] || !IsSpace(TrimRight(s)[|TrimRight(s)| - 1])
    decreases |s|
  {
    if s != [] && IsSpace(s[|s| - 1]) {
      TrimRightKeepsHead(s[..|s| - 1]);
    }
  }

  lemma {:induction false} TrimLeftStops(s: string)
    ensures TrimLeft(s) == [] || !IsSpace(TrimLeft(s)[0])
    decreases |s|
  {
    if s != [] && IsSpace(s[0]) {
      TrimLeftStops(s[1..]);
    }
  }

  lemma TrimSpaceTrims(s: string)
    ensures Trimmed(TrimSpace(s))
  {
    TrimLeftStops(s);
    TrimRightKeepsHead(TrimLeft(s));
  }

  /** Lower-casing changes the capital letters, each to its small one, and nothing else. */
  lemma LowerFoldsCapitals(s: string, i: nat)
    requires i < |s|
    ensures |Lower(s)| == |s|
    ensures 'A' <= s[i] <= 'Z' ==> Lower(s)[i] as int == s[i] as int + 32
    ensures !('A' <= s[i] <= 'Z') ==> Lower(s)[i] == s[i]
    ensures Lower(Lower(s)) == Lower(s)
  {}

  predicate AllSpaces(s: string) {
    forall c | c in s :: IsSpace(c)
  }

  lemma {:induction false} TrimLeftDropsSpaces(s: string) returns (front: string)
    ensures s == front + TrimLeft(s) && AllSpaces(front)
    decreases |s|
  {
    front := [];
    if s != [] && IsSpace(s[0]) {
      var rest := TrimLeftDropsSpaces(s[1..]);
      front := [s[0]] + rest;
      assert s == [s[0]] + s[1..];
    }
  }

  lemma {:induction false} TrimRightDropsSpaces(s: string) returns (back: string)
    ensures s == TrimRight(s) + back && AllSpaces(back)
    decreases |s|
  {
    back := [];
    if s != [] && IsSpace(s[|s| - 1]) {
      var rest := TrimRightDropsSpaces(s[..|s| - 1]);
      back := rest + [s[|s| - 1]];
      assert s == s[..|s| - 1] + [s[|s| - 1]];
    }
  }

  /** Trimming takes off spaces at both ends and nothing else. */
  lemma TrimSpaceDropsSpacesOnly(s: string) returns (front: string, back: string)
    ensures s == front + TrimSpace(s) + back && AllSpaces(front) && AllSpaces(back) && Trimmed(TrimSpace(s))
  {
    front := TrimLeftDropsSpaces(s);
    back := TrimRightDropsSpaces(TrimLeft(s));
    TrimSpaceTrims(s);
  }
}
