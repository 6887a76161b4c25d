/** What several of the models share. */
module Wrappers {
  datatype Option<+T> = None | Some(value: T)

  /** For the source's pairs of a value and an error. */
  datatype Result<+T> = Ok(value: T) | Err(message: string)

  function Pow2(n: nat): (r: nat)
    ensures r > 0
  {
    if n == 0 then 1 else 2 * Pow2(n - 1)
  }

  /** White space as unicode.IsSpace defines it. */
  predicate IsSpace(c: char) {
    || '\t' <= c <= '\r' || c == ' ' || c == '\U{85}' || c == '\U{A0}' || c == '\U{1680}'
    || '\U{2000}' <= c <= '\U{200A}' || c == '\U{2028}' || c == '\U{2029}' || c == '\U{202F}'
    || c == '\U{205F}' || c == '\U{3000}'
  }

  function TrimSpace(s: string): (t: string)
    ensures t != "" ==> !IsSpace(t[0]) && !IsSpace(t[|t| - 1])
    ensures s != "" && !IsSpace(s[0]) && !IsSpace(s[|s| - 1]) ==> t == s
    ensures forall c :: c in t ==> c in s
    ensures |t| <= |s|
    decreases |s|
  {
    if s == "" then ""
    else if IsSpace(s[0]) then TrimSpace(s[1..])
    else if IsSpace(s[|s| - 1]) then TrimSpace(s[..|s| - 1])
    else s
  }

  predicate Blank(s: string) { forall i :: 0 <= i < |s| ==> IsSpace(s[i]) }

  /** Trimming takes away what is white at both ends, and nothing else. */
  lemma {:induction false} TrimOf(a: string, core: string, b: string)
    requires Blank(a) && Blank(b) && (core != "" ==> !IsSpace(core[0]) && !IsSpace(core[|core| - 1]))
    ensures TrimSpace(a + core + b) == core
    decreases |a| + |b|
  {
    var s := a + core + b;
    if a != "" {
      assert s[1..] == a[1..] + core + b;
      TrimOf(a[1..], core, b);
    } else if core == "" && b != "" {
      assert s[1..] == a + core + b[1..];
      TrimOf(a, core, b[1..]);
    } else if b != "" {
      assert s[..|s| - 1] == a + core + b[..|b| - 1];
      TrimOf(a, core, b[..|b| - 1]);
    } else {
      assert s == core;
    }
  }

  lemma BlankFront(s: string, i: nat)
    requires i < |s| && IsSpace(s[0]) && Blank(s[1..][..i])
    ensures Blank(s[..i + 1])
  {
    assert forall k :: 0 <= k < i ==> s[1..][..i][k] == s[..i + 1][k + 1];
  }

  lemma BlankBack(s: string, j: nat)
    requires j < |s| && IsSpace(s[|s| - 1]) && Blank(s[..|s| - 1][j..])
    ensures Blank(s[j..])
  {
    assert s[j..] == s[..|s| - 1][j..] + [s[|s| - 1]];
  }

  lemma {:induction false} TrimSplits(s: string) returns (i: nat, j: nat)
    ensures i <= j <= |s| && TrimSpace(s) == s[i..j] && Blank(s[..i]) && Blank(s[j..])
    decreases |s|
  {
    hide IsSpace, Blank;
    if s == "" {
      i, j := 0, 0;
      NothingIsBlank(s, 0, 0);
    } else if IsSpace(s[0]) {
      var i', j' := TrimSplits(s[1..]);
      BlankFront(s, i');
      i, j := i' + 1, j' + 1;
      assert s[1..][i'..j'] == s[i..j] && s[1..][j'..] == s[j..];
    } else if IsSpace(s[|s| - 1]) {
      i, j := TrimSplits(s[..|s| - 1]);
      BlankBack(s, j);
      assert s[..|s| - 1][i..j] == s[i..j] && s[..|s| - 1][..i] == s[..i];
    } else {
      i, j := 0, |s|;
      NothingIsBlank(s, 0, |s|);
    }
  }

  lemma NothingIsBlank(s: string, i: nat, j: nat)
    requires i == 0 && j == |s|
    ensures Blank(s[..i]) && Blank(s[j..]) && s[i..j] == s
  {
  }

  /** Somewhere in the sequence `a` comes before `b`. */
  predicate InOrder<T(==)>(s: seq<T>, a: T, b: T) {
    exists j :: 0 <= j < |s| && s[j] == b && a in s[..j]
  }

  lemma OneMore<T>(s: seq<T>, a: T, b: T, x: T)
    ensures InOrder(s + [x], a, b) <==> InOrder(s, a, b) || (a in s && b == x)
    ensures InOrder(s, a, b) ==> a in s && b in s
  {
    assert (s + [x])[|s|] == x && (s + [x])[..|s|] == s;
    assert forall j :: 0 <= j < |s| ==> (s + [x])[j] == s[j] && (s + [x])[..j] == s[..j];
  }
}
