/** The string operations of JavaScript that several files use. */
module Strings {
  import opened Prelude

  /** White space as the regular expression class `\s` has it. */
  predicate IsSpace(c: char) {
    || c in " \t\n\r" || c == '\U{0b}' || c == '\U{0c}' || c == '\U{a0}' || c == '\U{1680}'
    || '\U{2000}' <= c <= '\U{200a}' || c in ['\U{2028}', '\U{2029}', '\U{202f}', '\U{205f}', '\U{3000}', '\U{feff}']
  }

  function LowerChar(c: char): char {
    if 'A' <= c <= 'Z' then c + 32 as char else c
  }

  function Lower(s: string): (l: string)
    ensures |l| == |s| && forall k :: 0 <= k < |s| ==> l[k] == LowerChar(s[k])
  {
    seq(|s|, k requires 0 <= k < |s| => LowerChar(s[k]))
  }

  const UPPER := "ABCDEFGHIJKLMNOPQRSTUVWXYZ"
  const LOWER := "abcdefghijklmnopqrstuvwxyz"

  /** Capitals become the letters at their place in the alphabet, anything else stays. */
  lemma LowerMeaning(s: string, k: nat)
    requires k < |s|
    ensures forall n :: 0 <= n < 26 && s[k] == UPPER[n] ==> Lower(s)[k] == LOWER[n]
    ensures s[k] !in UPPER ==> Lower(s)[k] == s[k]
  {
    assert |UPPER| == 26 && |LOWER| == 26;
    assert forall n :: 0 <= n < 26 ==> UPPER[n] == 'A' + n as char && LOWER[n] == 'a' + n as char;
    if 'A' <= s[k] <= 'Z' { assert UPPER[(s[k] - 'A') as int] == s[k]; }
  }

  /** The code points of white space. */
  lemma SpaceMeaning(c: char)
    ensures var n := c as int;
            IsSpace(c) <==>
              || 9 <= n <= 13 || 8192 <= n <= 8202
              || n in {32, 160, 5760, 8232, 8233, 8239, 8287, 12288, 65279}
  {
  }

  lemma LowerTwice(s: string)
    ensures Lower(Lower(s)) == Lower(s)
  {
  }

  function TrimLeft(s: string): string {
    if s != [] && IsSpace(s[0]) then TrimLeft(s[1..]) else s
  }

  function TrimRight(s: string): string {
    if s != [] && IsSpace(Last(s)) then TrimRight(Init(s)) else s
  }

  function Trim(s: string): string { TrimRight(TrimLeft(s)) }

  /** A field of a request body. */
  datatype BodyField = Absent | NotText | Typed(s: string)

  predicate IsControl(c: char) { c < ' ' || c == '\U{7f}' }

  /** `requiredText`: trimmed, not empty, not too long, no control characters. */
  function RequiredText(input: BodyField, max: nat): Option<string> {
    if !input.Typed? then None
    else
      var trimmed := Trim(input.s);
      if 1 <= |trimmed| <= max && forall k :: 0 <= k < |trimmed| ==> !IsControl(trimmed[k]) then Some(trimmed) else None
  }

  /** The piece of `s` from `i` to `j`, with white space around it and none at its own ends. */
  predicate IsTrimmed(s: string, i: nat, j: nat) {
    && i <= j <= |s|
    && (forall k :: 0 <= k < |s| && (k < i || j <= k) ==> IsSpace(s[k]))
    && (i < j ==> !IsSpace(s[i]) && !IsSpace(s[j - 1]))
  }

  lemma {:induction false} TrimLeftShape(s: string) returns (i: nat)
    ensures i <= |s| && TrimLeft(s) == s[i..]
    ensures (forall k :: 0 <= k < i ==> IsSpace(s[k])) && (i < |s| ==> !IsSpace(s[i]))
  {
    i := 0;
    if s != [] && IsSpace(s[0]) {
      var t := s[1..];
      var n := TrimLeftShape(t);
      i := n + 1;
      assert t[n..] == s[i..];
      assert forall k :: 0 < k < i ==> s[k] == t[k - 1];
    }
  }

  lemma {:induction false} TrimRightShape(s: string) returns (j: nat)
    ensures j <= |s| && TrimRight(s) == s[..j]
    ensures (forall k :: j <= k < |s| ==> IsSpace(s[k])) && (0 < j ==> !IsSpace(s[j - 1]))
  {
    j := |s|;
    if s != [] && IsSpace(Last(s)) {
      var t := Init(s);
      j := TrimRightShape(t);
      assert t[..j] == s[..j];
      assert forall k :: 0 <= k < |t| ==> s[k] == t[k];
    }
  }

  /** Trimming cuts the middle piece out from between two runs of white space. */
  lemma TrimShape(s: string) returns (i: nat, j: nat)
    ensures IsTrimmed(s, i, j) && Trim(s) == s[i..j]
  {
    i := TrimLeftShape(s);
    var left := s[i..];
    var n := TrimRightShape(left);
    j := i + n;
    assert left[..n] == s[i..j];
    assert forall k :: i <= k < |s| ==> s[k] == left[k - i];
  }

  /** There is only one such piece, so `Trim` is determined by its shape. */
  lemma TrimmedUnique(s: string, i: nat, j: nat)
    requires IsTrimmed(s, i, j)
    ensures Trim(s) == s[i..j]
  {
    var a, b := TrimShape(s);
    assert i < j ==> a <= i && j <= b;
    assert a < b ==> i <= a && b <= j;
  }

  /** Trimming again changes nothing. */
  lemma TrimTwice(s: string)
    ensures Trim(Trim(s)) == Trim(s)
  {
    var i, j := TrimShape(s);
    assert IsTrimmed(Trim(s), 0, |Trim(s)|);
    TrimmedUnique(Trim(s), 0, |Trim(s)|);
  }
}
