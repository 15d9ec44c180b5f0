/**
 `String.prototype.trim`, over a whitespace predicate given as a parameter:
 removing the leading and the trailing whitespace of a string.
 */
module Trimming {

  /** How many whitespace characters `s` starts with. */
  function Leading(ws: char -> bool, s: string): (n: nat)
    ensures n <= |s|
    ensures forall k | 0 <= k < n :: ws(s[k])
    ensures n < |s| ==> !ws(s[n])
  {
    if s != [] && ws(s[0]) then 1 + Leading(ws, s[1..]) else 0
  }

  /** How many whitespace characters `s` ends with. */
  function Trailing(ws: char -> bool, s: string): (n: nat)
    ensures n <= |s|
    ensures forall k | |s| - n <= k < |s| :: ws(s[k])
    ensures n < |s| ==> !ws(s[|s| - n - 1])
  {
    if s != [] && ws(s[|s| - 1]) then 1 + Trailing(ws, s[..|s| - 1]) else 0
  }

  /** The slice of `s` between its leading and its trailing whitespace, itself
      neither starting nor ending with whitespace; empty exactly when `s` is
      all whitespace. */
  function Trim(ws: char -> bool, s: string): (r: string)
    ensures var i := Leading(ws, s);
            && i + |r| <= |s|
            && r == s[i..i + |r|]
            && (forall k | 0 <= k < i :: ws(s[k]))
            && (forall k | i + |r| <= k < |s| :: ws(s[k]))
    ensures r != [] ==> !ws(r[0]) && !ws(r[|r| - 1])
    ensures r == [] <==> forall k | 0 <= k < |s| :: ws(s[k])
  {
    var i := Leading(ws, s);
    var t := s[i..];
    var j := i + |t| - Trailing(ws, t);
    assert forall k | j <= k < |s| :: s[k] == t[k - i];
    assert j > i ==> s[j - 1] == t[|t| - Trailing(ws, t) - 1];
    s[i..j]
  }

  /** Trimming a trimmed string changes nothing. */
  lemma TrimIdempotent(ws: char -> bool, s: string)
    ensures Trim(ws, Trim(ws, s)) == Trim(ws, s)
  {
    var r := Trim(ws, s);
    if r != [] {
      assert Leading(ws, r) == 0;
      assert Trailing(ws, r[0..]) == 0 by { assert r[0..] == r; }
    }
  }

  /** Any slice of `s` that leaves out only whitespace and neither starts nor
      ends with whitespace is the trimmed string. */
  lemma {:induction false} TrimUnique(ws: char -> bool, s: string, i: nat, j: nat)
    requires i <= j <= |s|
    requires forall k | 0 <= k < i :: ws(s[k])
    requires forall k | j <= k < |s| :: ws(s[k])
    requires i < j ==> !ws(s[i]) && !ws(s[j - 1])
    ensures Trim(ws, s) == s[i..j]
  {
    var r := Trim(ws, s);
    if i < j {
      var n := Leading(ws, s);
      assert n == i;
      assert |r| == j - i;
    }
  }
}
