/**
  The note of a wrap-up, agent-wrapup-v1.ts: one pass of `replace(/\r\n/g, '\n')`, then `trim()`. One
  pass can leave a CR LF behind, and sending the stored note again then gives another payload.
*/
module WrapupNotes {
  import opened Prelude
  import opened Strings
  import opened Wrapup

  const CRLF := "\r\n"
  const CRCRLF := "\r\r\n"

  /** A character that is no white space. */
  predicate HasInk(s: string) {
    exists k :: 0 <= k < |s| && !IsSpace(s[k])
  }

  predicate SplitsAt(s: string, mark: string, k: nat) {
    k + |mark| <= |s| && s[k..k + |mark|] == mark
  }

  /** CR CR LF with other text somewhere before and somewhere after it. */
  predicate LeavesCrLf(note: string) {
    exists k :: 0 <= k < |note| && SplitsAt(note, CRCRLF, k) && HasInk(note[..k]) && HasInk(note[k + 3..])
  }

  predicate HasCrLf(s: string) {
    exists k :: 0 <= k < |s| && SplitsAt(s, CRLF, k)
  }

  // ---- one pass ----

  lemma UnixLinesSkips(c: char, rest: string)
    requires c != '\r' || rest == [] || rest[0] != '\n'
    ensures UnixLines([c] + rest) == [c] + UnixLines(rest)
  {
    var s := [c] + rest;
    assert s[1..] == rest;
    CrLfPrefix(s);
  }

  lemma CrLfPrefix(s: string)
    ensures CRLF <= s <==> |s| >= 2 && s[0] == '\r' && s[1] == '\n'
  {
  }

  lemma UnixLinesCuts(rest: string)
    ensures UnixLines(CRLF + rest) == "\n" + UnixLines(rest)
  {
    assert (CRLF + rest)[2..] == rest;
  }

  /** Two texts are replaced separately unless the seam between them is a CR LF. */
  lemma {:induction false} UnixLinesConcat(a: string, b: string)
    requires a == [] || b == [] || Last(a) != '\r' || b[0] != '\n'
    ensures UnixLines(a + b) == UnixLines(a) + UnixLines(b)
    decreases |a|
  {
    CrLfPrefix(a);
    if a == [] {
      assert a + b == b;
    } else if CRLF <= a {
      UnixLinesConcat(a[2..], b);
      ConcatCut(a[2..], b);
      assert a == CRLF + a[2..];
    } else {
      UnixLinesConcat(a[1..], b);
      ConcatSkip(a[0], a[1..], b);
      assert a == [a[0]] + a[1..];
    }
  }

  lemma Regroup(a: string, b: string, c: string)
    ensures (a + b) + c == a + (b + c)
  {
  }

  lemma ConcatCut(t: string, b: string)
    requires UnixLines(t + b) == UnixLines(t) + UnixLines(b)
    ensures UnixLines((CRLF + t) + b) == UnixLines(CRLF + t) + UnixLines(b)
  {
    Regroup(CRLF, t, b);
    UnixLinesCuts(t);
    UnixLinesCuts(t + b);
    Regroup("\n", UnixLines(t), UnixLines(b));
  }

  lemma ConcatSkip(c: char, t: string, b: string)
    requires c != '\r' || ((t == [] || t[0] != '\n') && (t + b == [] || (t + b)[0] != '\n'))
    requires UnixLines(t + b) == UnixLines(t) + UnixLines(b)
    ensures UnixLines(([c] + t) + b) == UnixLines([c] + t) + UnixLines(b)
  {
    Regroup([c], t, b);
    UnixLinesSkips(c, t);
    UnixLinesSkips(c, t + b);
    Regroup([c], UnixLines(t), UnixLines(b));
  }

  lemma {:induction false} UnixLinesInk(s: string)
    ensures HasInk(UnixLines(s)) <==> HasInk(s)
    decreases |s|
  {
    CrLfPrefix(s);
    if s != [] {
      var n := if CRLF <= s then 2 else 1;
      var head := if CRLF <= s then "\n" else [s[0]];
      UnixLinesInk(s[n..]);
      InkConcat(head, UnixLines(s[n..]));
      InkConcat(s[..n], s[n..]);
      assert s == s[..n] + s[n..];
      assert HasInk(head) <==> HasInk(s[..n]) by {
        if CRLF <= s {
          assert IsSpace(head[0]) && IsSpace(s[..n][0]) && IsSpace(s[..n][1]);
        } else {
          assert head == s[..n];
        }
      }
    }
  }

  lemma InkConcat(a: string, b: string)
    ensures HasInk(a + b) <==> HasInk(a) || HasInk(b)
  {
    if k :| 0 <= k < |a| && !IsSpace(a[k]) { assert (a + b)[k] == a[k]; }
    if k :| 0 <= k < |b| && !IsSpace(b[k]) { assert (a + b)[|a| + k] == b[k]; }
  }

  /** What remains of `x + CRLF + y` behind its first character. */
  lemma BehindFirst(c: char, rest: string, x: string, y: string)
    requires [c] + rest == x + CRLF + y
    ensures if x == [] then c == '\r' && rest == "\n" + y else x[0] == c && rest == x[1..] + CRLF + y
  {
    var s := x + CRLF + y;
    assert s[0] == c && s[1..] == rest;
    if x == [] {
      assert s == CRLF + y && s[1..] == CRLF[1..] + y;
    } else {
      assert s[0] == x[0] && s[1..] == x[1..] + CRLF + y;
    }
  }

  /** CR CR LF between two texts. */
  function Around(a: string, b: string): string { a + ("\r" + (CRLF + b)) }

  /** A CR LF of the result stands where CR CR LF stood. */
  lemma {:induction false} CrLfOrigin(s: string, x: string, y: string) returns (a: string, b: string)
    requires UnixLines(s) == x + CRLF + y
    ensures s == Around(a, b) && UnixLines(a) == x && UnixLines(b) == y
    decreases |s|
  {
    assert s != [] by { assert |UnixLines(s)| >= 2; }
    var n, head := OneStep(s);
    BehindFirst(head, UnixLines(s[n..]), x, y);
    if x != [] {
      a, b := CrLfOrigin(s[n..], x[1..], y);
      a := OneMore(s, n, head, a, b);
      assert x == [x[0]] + x[1..];
    } else {
      b := OriginOfLf(s[1..], y);
      a := [];
      assert s == [s[0]] + s[1..] && s == [] + ("\r" + (CRLF + b));
    }
  }

  /** The first step of the pass takes `n` characters and writes one. */
  lemma OneStep(s: string) returns (n: nat, head: char)
    requires s != []
    ensures n == (if CRLF <= s then 2 else 1) && head == (if n == 2 then '\n' else s[0]) && n <= |s|
    ensures UnixLines(s) == [head] + UnixLines(s[n..])
    ensures n == 1 && head == '\r' ==> |s| == 1 || s[1] != '\n'
  {
    CrLfPrefix(s);
    n := if CRLF <= s then 2 else 1;
    head := if n == 2 then '\n' else s[0];
  }

  lemma OneMore(s: string, n: nat, head: char, rest: string, b: string) returns (a: string)
    requires s != [] && n == (if CRLF <= s then 2 else 1) && head == (if n == 2 then '\n' else s[0]) && n <= |s|
    requires s[n..] == Around(rest, b)
    ensures s == Around(a, b) && UnixLines(a) == [head] + UnixLines(rest)
  {
    a := s[..n] + rest;
    var tail := "\r" + (CRLF + b);
    Regroup(s[..n], rest, tail);
    assert s == s[..n] + s[n..];
    CrLfPrefix(s);
    if n == 2 {
      assert s[..n] == CRLF;
      UnixLinesCuts(rest);
    } else {
      assert s[..n] == [s[0]];
      assert rest != [] ==> rest[0] == s[n..][0];
      UnixLinesSkips(s[0], rest);
    }
  }

  /** A leading LF that was not one before was a CR LF. */
  lemma OriginOfLf(t: string, y: string) returns (b: string)
    requires UnixLines(t) == "\n" + y && (t == [] || t[0] != '\n')
    ensures t == CRLF + b && UnixLines(b) == y
  {
    assert UnixLines(t)[0] == '\n' && UnixLines(t)[1..] == y;
    b := t[2..];
    assert t == CRLF + b;
  }

  // ---- a second pass ----

  /** A pass changes a text exactly when there is a CR LF in it. */
  lemma {:induction false} UnixLinesIdleIff(s: string)
    ensures |UnixLines(s)| <= |s|
    ensures UnixLines(s) == s <==> !HasCrLf(s)
    ensures HasCrLf(s) ==> |UnixLines(s)| < |s|
    decreases |s|
  {
    CrLfPrefix(s);
    if CRLF <= s {
      UnixLinesIdleIff(s[2..]);
      assert SplitsAt(s, CRLF, 0);
    } else if s != [] {
      UnixLinesIdleIff(s[1..]);
      CrLfInTail(s);
    }
  }

  lemma CrLfInTail(s: string)
    requires s != [] && !(CRLF <= s)
    ensures HasCrLf(s) <==> HasCrLf(s[1..])
  {
    if k :| 0 <= k < |s| && SplitsAt(s, CRLF, k) {
      assert k > 0;
      assert s[1..][k - 1..k + 1] == s[k..k + 2];
      assert SplitsAt(s[1..], CRLF, k - 1);
    }
    if k :| 0 <= k < |s[1..]| && SplitsAt(s[1..], CRLF, k) {
      assert s[1..][k..k + 2] == s[k + 1..k + 3];
      assert SplitsAt(s, CRLF, k + 1);
    }
  }

  /** Normalising a normalised note changes it exactly when there is a CR LF in it. */
  lemma SecondPass(note: string)
    ensures var n := Normalise(note); Normalise(n) == n <==> !HasCrLf(n)
  {
    var n := Normalise(note);
    TrimTwice(UnixLines(note));
    UnixLinesIdleIff(n);
    var i, j := TrimShape(UnixLines(n));
  }

  // ---- on the note as it was typed ----

  /** CR LF between two inked texts is what a trimmed text with a CR LF in it looks like. */
  lemma CrLfSurvives(x: string, y: string)
    requires HasInk(x) && HasInk(y)
    ensures HasCrLf(Trim(x + CRLF + y))
  {
    var s := x + CRLF + y;
    var i, j := TrimShape(s);
    var k :| 0 <= k < |x| && !IsSpace(x[k]);
    var l :| 0 <= l < |y| && !IsSpace(y[l]);
    assert s[k] == x[k] && s[|x| + 2 + l] == y[l];
    assert i <= k && |x| + 2 + l < j;
    SplitInside(s, i, j, |x|);
  }

  lemma SplitInside(s: string, i: nat, j: nat, k: nat)
    requires i <= k && k + 2 <= j <= |s| && s[k..k + 2] == CRLF
    ensures HasCrLf(s[i..j])
  {
    var t, p := s[i..j], k - i;
    assert t[p] == s[k] == s[k..k + 2][0] && t[p + 1] == s[k + 1] == s[k..k + 2][1];
    assert t[p..p + 2] == CRLF;
    assert SplitsAt(t, CRLF, p);
  }

  lemma CrLfInside(s: string) returns (x: string, y: string)
    requires HasCrLf(Trim(s))
    ensures s == x + CRLF + y && HasInk(x) && HasInk(y)
  {
    var i, j := TrimShape(s);
    var p :| 0 <= p < j - i && SplitsAt(s[i..j], CRLF, p);
    var k := i + p;
    assert s[k..k + 2] == s[i..j][p..p + 2];
    assert s[k] == CRLF[0] && s[k + 1] == CRLF[1];
    x, y := s[..k], s[k + 2..];
    assert s == x + s[k..k + 2] + y;
    assert i < k && k + 1 < j - 1;
    assert x[i] == s[i] && y[j - 1 - (k + 2)] == s[j - 1];
  }

  /**
    Sending a stored note again gives another payload exactly when the note first typed has a CR CR LF
    with other text on both sides of it.
  */
  lemma NormaliseTwiceIff(note: string)
    ensures Normalise(Normalise(note)) != Normalise(note) <==> LeavesCrLf(note)
  {
    SecondPass(note);
    if k :| 0 <= k < |note| && SplitsAt(note, CRCRLF, k) && HasInk(note[..k]) && HasInk(note[k + 3..]) {
      Apart(note, k);
      InkedLeaves(note[..k], note[k + 3..]);
    }
    if HasCrLf(Normalise(note)) {
      var x, y := CrLfInside(UnixLines(note));
      var a, b := CrLfOrigin(note, x, y);
      UnixLinesInk(a);
      UnixLinesInk(b);
      Together(a, b);
    }
  }

  lemma InkedLeaves(a: string, b: string)
    requires HasInk(a) && HasInk(b)
    ensures HasCrLf(Normalise(Around(a, b)))
  {
    OneIsLeft(a, b);
    UnixLinesInk(a);
    UnixLinesInk(b);
    CrLfSurvives(UnixLines(a), UnixLines(b));
  }

  lemma Apart(s: string, k: nat)
    requires SplitsAt(s, CRCRLF, k)
    ensures s == Around(s[..k], s[k + 3..])
  {
    assert s == s[..k] + (s[k..k + 3] + s[k + 3..]);
    Regroup("\r", CRLF, s[k + 3..]);
  }

  lemma Together(a: string, b: string)
    ensures var s := Around(a, b); SplitsAt(s, CRCRLF, |a|) && s[..|a|] == a && s[|a| + 3..] == b
  {
    Regroup("\r", CRLF, b);
    var s := a + (CRCRLF + b);
    assert s[|a|..] == CRCRLF + b && s[|a|..|a| + 3] == CRCRLF;
  }

  /** The first CR stays and meets the LF that the pass wrote. */
  lemma OneIsLeft(a: string, b: string)
    ensures UnixLines(Around(a, b)) == UnixLines(a) + CRLF + UnixLines(b)
  {
    var tail := CRLF + b;
    UnixLinesCuts(b);
    UnixLinesSkips('\r', tail);
    UnixLinesConcat(a, "\r" + tail);
    Regroup("\r", "\n", UnixLines(b));
    Regroup(UnixLines(a), CRLF, UnixLines(b));
  }

  /** The shortest family of such notes. */
  lemma NormaliseLeavesCrLf(c: char, d: char)
    requires !IsSpace(c) && !IsSpace(d)
    ensures Normalise(Normalise([c, '\r', '\r', '\n', d])) != Normalise([c, '\r', '\r', '\n', d])
  {
    var note := [c, '\r', '\r', '\n', d];
    assert SplitsAt(note, CRCRLF, 1) && note[..1][0] == c && note[4..][0] == d;
    NormaliseTwiceIff(note);
  }
}
