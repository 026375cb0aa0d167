/** ASCII text: the few functions of Go's `strings` that the query front end uses. */
module Text {

  function UpperChar(c: char): char {
    if 'a' <= c <= 'z' then (c as int - 32) as char else c
  }

  function Upper(s: string): (r: string)
    ensures |r| == |s|
    ensures forall i :: 0 <= i < |s| ==> r[i] == UpperChar(s[i])
  {
    seq(|s|, i requires 0 <= i < |s| => UpperChar(s[i]))
  }

  lemma UpperConcat(a: string, b: string)
    ensures Upper(a + b) == Upper(a) + Upper(b)
  {
  }

  lemma UpperSlice(s: string, i: nat, j: nat)
    requires i <= j <= |s|
    ensures Upper(s[i..j]) == Upper(s)[i..j]
  {
  }

  predicate OccursAt(s: string, sub: string, i: int) {
    0 <= i && i + |sub| <= |s| && s[i..i + |sub|] == sub
  }

  /** The first occurrence at or after `from`, or -1. */
  function IndexFrom(s: string, sub: string, from: nat): (i: int)
    ensures i >= 0 ==> from <= i && OccursAt(s, sub, i)
    ensures forall k :: from <= k && (i < 0 || k < i) ==> !OccursAt(s, sub, k)
    ensures i >= -1
    decreases |s| - from
  {
    if from + |sub| > |s| then -1
    else if OccursAt(s, sub, from) then from
    else IndexFrom(s, sub, from + 1)
  }

  function Index(s: string, sub: string): int {
    IndexFrom(s, sub, 0)
  }

  predicate Contains(s: string, sub: string) {
    Index(s, sub) >= 0
  }

  predicate IsSpace(c: char) {
    c == ' ' || 9 <= c as int <= 13
  }

  function TrimLeft(s: string): string {
    if s != "" && IsSpace(s[0]) then TrimLeft(s[1..]) else s
  }

  function TrimRight(s: string): string {
    if s != "" && IsSpace(s[|s| - 1]) then TrimRight(s[..|s| - 1]) else s
  }

  function TrimSpace(s: string): string {
    TrimRight(TrimLeft(s))
  }

  /** Text that trimming leaves alone. */
  predicate Trimmed(s: string) {
    s != "" ==> !IsSpace(s[0]) && !IsSpace(s[|s| - 1])
  }

  lemma TrimTrimmed(s: string)
    requires Trimmed(s)
    ensures TrimSpace(s) == s && TrimSpace(" " + s) == s
  {
    assert (" " + s)[1..] == s;
    assert TrimLeft(" " + s) == TrimLeft(s) == s;
  }

  predicate Blank(s: string) {
    forall i :: 0 <= i < |s| ==> IsSpace(s[i])
  }

  lemma {:induction false} TrimLeftBlanks(a: string, core: string)
    requires Blank(a) && (core != "" ==> !IsSpace(core[0]))
    ensures TrimLeft(a + core) == core
  {
    if a != "" {
      TrimLeftBlanks(a[1..], core);
      assert (a + core)[1..] == a[1..] + core;
    } else {
      assert a + core == core;
    }
  }

  lemma {:induction false} TrimRightBlanks(core: string, b: string)
    requires Blank(b) && (core != "" ==> !IsSpace(core[|core| - 1]))
    ensures TrimRight(core + b) == core
  {
    if b != "" {
      var front := b[..|b| - 1];
      TrimRightBlanks(core, front);
      assert (core + b)[..|core + b| - 1] == core + front;
    } else {
      assert core + b == core;
    }
  }

  /** Trimming takes away exactly the blanks at both ends. */
  lemma TrimSpaceIs(a: string, core: string, b: string)
    requires Blank(a) && Blank(b) && core != "" && Trimmed(core)
    ensures TrimSpace(a + core + b) == core
  {
    assert a + core + b == a + (core + b);
    TrimLeftBlanks(a, core + b);
    TrimRightBlanks(core, b);
  }

  lemma {:induction false} TrimLeftIs(s: string) returns (a: string)
    ensures Blank(a) && s == a + TrimLeft(s) && (TrimLeft(s) != "" ==> !IsSpace(TrimLeft(s)[0]))
  {
    if s != "" && IsSpace(s[0]) {
      var rest := TrimLeftIs(s[1..]);
      a := [s[0]] + rest;
      assert s == [s[0]] + s[1..];
    } else {
      a := "";
    }
  }

  lemma {:induction false} TrimRightIs(s: string) returns (b: string)
    ensures Blank(b) && s == TrimRight(s) + b && (TrimRight(s) != "" ==> !IsSpace(TrimRight(s)[|TrimRight(s)| - 1]))
  {
    if s != "" && IsSpace(s[|s| - 1]) {
      b := TrimRightIs(s[..|s| - 1]);
      b := b + [s[|s| - 1]];
    } else {
      b := "";
    }
  }

  /** What is left has no blanks at its ends, and only blanks are gone. */
  lemma TrimSpaceTrims(s: string) returns (a: string, b: string)
    ensures Trimmed(TrimSpace(s)) && Blank(a) && Blank(b) && s == a + TrimSpace(s) + b
  {
    a := TrimLeftIs(s);
    b := TrimRightIs(TrimLeft(s));
    var core := TrimSpace(s);
    assert TrimLeft(s) == core + b;
    if core != "" {
      assert core[0] == TrimLeft(s)[0];
    }
  }

  /** Blanks are the space, tab, newline, vertical tab, form feed and carriage return. */
  lemma SpacesAre(c: char)
    ensures IsSpace(c) <==> c == ' ' || c == '\t' || c == '\n' || c == 11 as char || c == 12 as char || c == '\r'
  {
  }

  /** The letters of the alphabet in capitals; all else stays. */
  lemma UpperAlphabet(s: string)
    ensures Upper("abcdefghijklmnopqrstuvwxyz") == "ABCDEFGHIJKLMNOPQRSTUVWXYZ"
    ensures (forall i :: 0 <= i < |s| ==> !('a' <= s[i] <= 'z')) ==> Upper(s) == s
  {
  }

  predicate HasSuffix(s: string, suffix: string) {
    |suffix| <= |s| && s[|s| - |suffix|..] == suffix
  }

  function Join(parts: seq<string>, sep: string): string {
    if parts == [] then ""
    else if |parts| == 1 then parts[0]
    else Join(parts[..|parts| - 1], sep) + sep + parts[|parts| - 1]
  }

}
