/** The rewriting of `Group.Column` to `Group_Column`: ReplaceAllString with the pattern
  * ([a-zA-Z_]\w*)\.([a-zA-Z_]\w*|\*) in pkg/query/translator.go, as an explicit scanner. */
module Scanner {

  predicate IsStart(c: char) {
    'a' <= c <= 'z' || 'A' <= c <= 'Z' || c == '_'
  }

  predicate IsWord(c: char) {
    IsStart(c) || '0' <= c <= '9'
  }

  /** Where the run of word characters that begins at `k` ends. */
  function RunEnd(s: string, k: nat): (e: nat)
    requires k <= |s|
    ensures k <= e <= |s|
    decreases |s| - k
  {
    if k < |s| && IsWord(s[k]) then RunEnd(s, k + 1) else k
  }

  lemma {:induction false} RunIsWords(s: string, k: nat)
    requires k <= |s|
    ensures forall j :: k <= j < RunEnd(s, k) ==> IsWord(s[j])
    ensures RunEnd(s, k) < |s| ==> !IsWord(s[RunEnd(s, k)])
    decreases |s| - k
  {
    if k < |s| && IsWord(s[k]) {
      RunIsWords(s, k + 1);
    }
  }

  /** A column may follow the dot at `d`: an identifier start or `*` does. */
  predicate NextOk(s: string, d: nat)
    requires d < |s|
  {
    d + 1 < |s| && (IsStart(s[d + 1]) || s[d + 1] == '*')
  }

  /** The dot of a match at `k`. */
  predicate MatchesAt(s: string, k: nat)
    requires k <= |s|
  {
    k < |s| && IsStart(s[k]) && RunEnd(s, k) < |s| && s[RunEnd(s, k)] == '.' && NextOk(s, RunEnd(s, k))
  }

  /** Where a match at `k` ends. */
  function MatchEnd(s: string, k: nat): (e: nat)
    requires k <= |s| && MatchesAt(s, k)
    ensures RunEnd(s, k) + 1 < e <= |s|
  {
    var d := RunEnd(s, k);
    if s[d + 1] == '*' then d + 2 else RunEnd(s, d + 1)
  }

  /** ${1}_${2}: the text from `k` to `e` with an underscore for the dot at `d`. */
  function Flattened(s: string, k: nat, d: nat, e: nat): (r: string)
    requires k <= d < e <= |s|
    ensures |r| == e - k
  {
    s[k..d] + "_" + s[d + 1..e]
  }

  /** Where the scanner goes on after looking at `k`. */
  function After(s: string, k: nat): (e: nat)
    requires k < |s|
    ensures k < e <= |s|
  {
    if MatchesAt(s, k) then MatchEnd(s, k) else k + 1
  }

  /** What it puts out for the text up to there. */
  function Chunk(s: string, k: nat): (c: string)
    requires k < |s|
    ensures |c| == After(s, k) - k
  {
    if MatchesAt(s, k) then Flattened(s, k, RunEnd(s, k), MatchEnd(s, k)) else [s[k]]
  }

  /** Leftmost, non-overlapping replacement of what remains from `k` on. */
  function TranslateFrom(s: string, k: nat): (t: string)
    requires k <= |s|
    ensures |t| == |s| - k
    decreases |s| - k
  {
    if k == |s| then "" else Chunk(s, k) + TranslateFrom(s, After(s, k))
  }

  function TranslateRefs(s: string): string {
    TranslateFrom(s, 0)
  }

  /** The group of a match at `k`, if there is one. */
  function FoundAt(s: string, k: nat): seq<string>
    requires k < |s|
  {
    if MatchesAt(s, k) then [s[k..RunEnd(s, k)]] else []
  }

  /** FindAllStringSubmatch from `k` on: the group of every match, in order. */
  function RefGroupsFrom(s: string, k: nat): seq<string>
    requires k <= |s|
    decreases |s| - k
  {
    if k == |s| then [] else FoundAt(s, k) + RefGroupsFrom(s, After(s, k))
  }

  function RefGroups(s: string): seq<string> {
    RefGroupsFrom(s, 0)
  }

  // ---------------------------------------------------------------------------------------
  // What a match is

  predicate IsIdent(s: string) {
    s != "" && IsStart(s[0]) && forall i :: 0 <= i < |s| ==> IsWord(s[i])
  }

  /** The text between `k` and `e` is an identifier, a dot, and an identifier or `*`. */
  predicate IsRefAt(s: string, k: nat, d: nat, e: nat)
    requires k < d < e <= |s|
  {
    && IsIdent(s[k..d]) && s[d] == '.'
    && d + 1 < e && (IsIdent(s[d + 1..e]) || (s[d + 1] == '*' && e == d + 2))
  }

  lemma {:induction false} RunReaches(s: string, k: nat, e: nat)
    requires k <= e <= |s| && forall j :: k <= j < e ==> IsWord(s[j])
    ensures e <= RunEnd(s, k)
    ensures e == |s| || !IsWord(s[e]) ==> RunEnd(s, k) == e
    decreases e - k
  {
    if k < e {
      RunReaches(s, k + 1, e);
    }
  }

  lemma MatchIsRef(s: string, k: nat)
    requires k < |s| && MatchesAt(s, k)
    ensures k < RunEnd(s, k) && IsRefAt(s, k, RunEnd(s, k), MatchEnd(s, k))
  {
    var d, e := RunEnd(s, k), MatchEnd(s, k);
    RunIsWords(s, k);
    assert IsIdent(s[k..d]);
    if s[d + 1] != '*' {
      RunIsWords(s, d + 1);
      assert s[d + 1..e][0] == s[d + 1];
      assert IsIdent(s[d + 1..e]);
    }
  }

  lemma RefIsMatched(s: string, k: nat, d: nat, e: nat)
    requires k < d < e <= |s| && IsRefAt(s, k, d, e)
    ensures MatchesAt(s, k) && d == RunEnd(s, k) && e <= MatchEnd(s, k)
  {
    assert forall j :: k <= j < d ==> s[j] == s[k..d][j - k];
    assert s[k] == s[k..d][0];
    RunReaches(s, k, d);
    assert s[d + 1] == s[d + 1..e][0];
    if IsIdent(s[d + 1..e]) {
      assert forall j :: d + 1 <= j < e ==> s[j] == s[d + 1..e][j - d - 1];
      RunReaches(s, d + 1, e);
    }
  }

  /** The scanner matches at `k` exactly when the pattern does, and then it takes the longest match. */
  lemma MatchIsLongestRef(s: string, k: nat)
    requires k < |s|
    ensures MatchesAt(s, k) <==> exists d, e :: k < d < e <= |s| && IsRefAt(s, k, d, e)
    ensures forall d, e :: k < d < e <= |s| && IsRefAt(s, k, d, e) ==> d == RunEnd(s, k) && e <= MatchEnd(s, k)
  {
    if MatchesAt(s, k) {
      MatchIsRef(s, k);
    }
    forall d, e | k < d < e <= |s| && IsRefAt(s, k, d, e)
      ensures MatchesAt(s, k) && d == RunEnd(s, k) && e <= MatchEnd(s, k)
    {
      RefIsMatched(s, k, d, e);
    }
  }

  // ---------------------------------------------------------------------------------------
  // Which dots are replaced

  /** Where the word-character run that ends just before `i` begins. */
  function WordStart(s: string, i: nat): (w: nat)
    requires i <= |s|
    ensures w <= i
  {
    if i > 0 && IsWord(s[i - 1]) then WordStart(s, i - 1) else i
  }

  predicate HasStart(s: string, a: nat, b: nat)
    requires a <= b <= |s|
  {
    exists j :: a <= j < b && IsStart(s[j])
  }

  /** A dot is replaced when an identifier start or `*` follows it and the run before it holds an
    * identifier start and was not itself used up by the dot before that run. */
  predicate Replaced(s: string, i: nat)
    requires i < |s|
    decreases i
  {
    && s[i] == '.' && NextOk(s, i)
    && HasStart(s, WordStart(s, i), i)
    && !(WordStart(s, i) > 0 && s[WordStart(s, i) - 1] == '.' && Replaced(s, WordStart(s, i) - 1))
  }

  lemma {:induction false} WordStartIs(s: string, w: nat, i: nat)
    requires w <= i <= |s|
    requires forall j :: w <= j < i ==> IsWord(s[j])
    requires w == 0 || !IsWord(s[w - 1])
    ensures WordStart(s, i) == w
    decreases i
  {
    if w < i {
      WordStartIs(s, w, i - 1);
    }
  }

  /** Scanning from `k` alone decides the dot that ends the run at `k` rightly. */
  predicate Clean(s: string, k: nat)
    requires k <= |s|
  {
    var i := RunEnd(s, k);
    i < |s| && s[i] == '.' ==> (Replaced(s, i) <==> NextOk(s, i) && HasStart(s, k, i))
  }

  lemma RunStartIsClean(s: string, k: nat)
    requires k <= |s|
    requires k == 0 || (!IsWord(s[k - 1]) && (s[k - 1] == '.' ==> !Replaced(s, k - 1)))
    ensures Clean(s, k)
  {
    RunIsWords(s, k);
    WordStartIs(s, k, RunEnd(s, k));
  }

  lemma SkippedStaysClean(s: string, k: nat)
    requires k < |s| && Clean(s, k) && !MatchesAt(s, k)
    ensures !Replaced(s, k) && Clean(s, k + 1)
  {
    if IsWord(s[k]) {
      var i := RunEnd(s, k);
      if i < |s| && s[i] == '.' && NextOk(s, i) {
        assert HasStart(s, k, i) <==> HasStart(s, k + 1, i);
      }
    } else {
      RunStartIsClean(s, k + 1);
    }
  }

  lemma MatchStaysClean(s: string, k: nat)
    requires k < |s| && Clean(s, k) && MatchesAt(s, k)
    ensures Replaced(s, RunEnd(s, k)) && Clean(s, MatchEnd(s, k))
  {
    var d, e := RunEnd(s, k), MatchEnd(s, k);
    assert HasStart(s, k, d);
    if s[d + 1] == '*' {
      RunStartIsClean(s, e);
    } else {
      RunIsWords(s, d + 1);
      WordStartIs(s, d + 1, e);
      assert RunEnd(s, e) == e;
    }
  }

  lemma FlattenedAt(s: string, k: nat, d: nat, e: nat, i: nat)
    requires k <= d < e <= |s| && k <= i < e
    ensures Flattened(s, k, d, e)[i - k] == if i == d then '_' else s[i]
  {
  }

  lemma ChunkAt(s: string, k: nat, i: nat)
    requires k < |s| && k <= i < After(s, k)
    ensures Chunk(s, k)[i - k] == if MatchesAt(s, k) && i == RunEnd(s, k) then '_' else s[i]
  {
    if MatchesAt(s, k) {
      FlattenedAt(s, k, RunEnd(s, k), MatchEnd(s, k), i);
    }
  }

  lemma RewrittenAt(s: string, k: nat, i: nat)
    requires k <= i < |s|
    ensures TranslateFrom(s, k)[i - k]
            == if i < After(s, k) then Chunk(s, k)[i - k] else TranslateFrom(s, After(s, k))[i - After(s, k)]
  {
    var front, tail := Chunk(s, k), TranslateFrom(s, After(s, k));
    assert TranslateFrom(s, k) == front + tail;
  }

  lemma OnlyTheDotIsReplaced(s: string, k: nat, i: nat)
    requires k <= i < |s| && MatchesAt(s, k) && i < MatchEnd(s, k) && i != RunEnd(s, k)
    ensures !Replaced(s, i)
  {
    RunIsWords(s, k);
    RunIsWords(s, RunEnd(s, k) + 1);
  }

  lemma ChunkIsRight(s: string, k: nat, i: nat)
    requires k < |s| && Clean(s, k) && k <= i < After(s, k)
    ensures Chunk(s, k)[i - k] == if Replaced(s, i) then '_' else s[i]
  {
    ChunkAt(s, k, i);
    if !MatchesAt(s, k) {
      SkippedStaysClean(s, k);
    } else if i == RunEnd(s, k) {
      MatchStaysClean(s, k);
    } else {
      OnlyTheDotIsReplaced(s, k, i);
    }
  }

  lemma StaysClean(s: string, k: nat)
    requires k < |s| && Clean(s, k)
    ensures Clean(s, After(s, k))
  {
    if MatchesAt(s, k) {
      MatchStaysClean(s, k);
    } else {
      SkippedStaysClean(s, k);
    }
  }

  /** The rewriting from a clean position changes exactly the replaced dots. */
  lemma {:induction false} TranslateFromSpec(s: string, k: nat, i: nat)
    requires k <= i < |s| && Clean(s, k)
    ensures TranslateFrom(s, k)[i - k] == if Replaced(s, i) then '_' else s[i]
    decreases |s| - k
  {
    RewrittenAt(s, k, i);
    if i < After(s, k) {
      ChunkIsRight(s, k, i);
    } else {
      StaysClean(s, k);
      TranslateFromSpec(s, After(s, k), i);
    }
  }

  /** The rewriting keeps the length and changes exactly the replaced dots. */
  lemma TranslateRefsSpec(s: string)
    ensures |TranslateRefs(s)| == |s|
    ensures forall i :: 0 <= i < |s| ==> TranslateRefs(s)[i] == if Replaced(s, i) then '_' else s[i]
  {
    RunStartIsClean(s, 0);
    forall i | 0 <= i < |s| ensures TranslateRefs(s)[i] == if Replaced(s, i) then '_' else s[i] {
      TranslateFromSpec(s, 0, i);
    }
  }

  // ---------------------------------------------------------------------------------------
  // Rewriting piece by piece

  /** No match can reach across the seam. */
  predicate Seam(a: string, b: string) {
    || a == "" || b == ""
    || (!IsWord(b[0]) && b[0] != '.' && b[0] != '*')
    || (!IsWord(a[|a| - 1]) && a[|a| - 1] != '.')
  }

  lemma Reassociate<T>(a: seq<T>, b: seq<T>, c: seq<T>)
    ensures a + (b + c) == a + b + c
  {
  }

  lemma ScanOnce(s: string, k: nat)
    requires k < |s|
    ensures TranslateFrom(s, k) == Chunk(s, k) + TranslateFrom(s, After(s, k))
    ensures RefGroupsFrom(s, k) == FoundAt(s, k) + RefGroupsFrom(s, After(s, k))
  {
  }

  /** One step of two scanners that see the same, the one with more text after it than the other. */
  lemma OneScan(s: string, k: nat, m: string, j: nat, rest: string, groups: seq<string>)
    requires k < |s| && j < |m| && Chunk(s, k) == Chunk(m, j) && FoundAt(s, k) == FoundAt(m, j)
    requires TranslateFrom(s, After(s, k)) == TranslateFrom(m, After(m, j)) + rest
    requires RefGroupsFrom(s, After(s, k)) == RefGroupsFrom(m, After(m, j)) + groups
    ensures TranslateFrom(s, k) == TranslateFrom(m, j) + rest
    ensures RefGroupsFrom(s, k) == RefGroupsFrom(m, j) + groups
  {
    ScanOnce(s, k);
    ScanOnce(m, j);
    Reassociate(Chunk(m, j), TranslateFrom(m, After(m, j)), rest);
    Reassociate(FoundAt(m, j), RefGroupsFrom(m, After(m, j)), groups);
  }

  lemma SameMatchSameChunk(s: string, k: nat, m: string, j: nat)
    requires k < |s| && j < |m| && MatchesAt(s, k) && MatchesAt(m, j) && SameMatch(s, k, m, j)
    ensures Chunk(s, k) == Chunk(m, j) && FoundAt(s, k) == FoundAt(m, j)
  {
    assert Chunk(s, k) == Flattened(s, k, RunEnd(s, k), MatchEnd(s, k));
    assert Chunk(m, j) == Flattened(m, j, RunEnd(m, j), MatchEnd(m, j));
  }

  predicate SameMatch(s: string, k: nat, m: string, j: nat)
    requires k <= |s| && j <= |m| && MatchesAt(s, k) && MatchesAt(m, j)
  {
    && s[k..RunEnd(s, k)] == m[j..RunEnd(m, j)]
    && s[RunEnd(s, k) + 1..MatchEnd(s, k)] == m[RunEnd(m, j) + 1..MatchEnd(m, j)]
  }

  lemma {:induction false} RunShift(a: string, b: string, j: nat)
    requires j <= |b|
    ensures RunEnd(a + b, |a| + j) == |a| + RunEnd(b, j)
  {
    RunIsWords(b, j);
    assert forall i :: |a| + j <= i < |a| + RunEnd(b, j) ==> (a + b)[i] == b[i - |a|];
    RunReaches(a + b, |a| + j, |a| + RunEnd(b, j));
  }

  lemma MatchShift(a: string, b: string, j: nat)
    requires j < |b|
    ensures MatchesAt(a + b, |a| + j) <==> MatchesAt(b, j)
    ensures After(a + b, |a| + j) == |a| + After(b, j)
  {
    RunShift(a, b, j);
    if RunEnd(b, j) < |b| {
      RunShift(a, b, RunEnd(b, j) + 1);
    }
  }

  lemma SameMatchShift(a: string, b: string, j: nat)
    requires j < |b| && MatchesAt(b, j)
    ensures MatchesAt(a + b, |a| + j) && SameMatch(a + b, |a| + j, b, j)
  {
    MatchShift(a, b, j);
    RunShift(a, b, j);
    SliceRight(a, b, j, RunEnd(b, j));
    SliceRight(a, b, RunEnd(b, j) + 1, MatchEnd(b, j));
  }

  lemma SliceRight(a: string, b: string, i: nat, j: nat)
    requires i <= j <= |b|
    ensures (a + b)[|a| + i..|a| + j] == b[i..j]
  {
  }

  lemma SliceLeft(a: string, b: string, i: nat, j: nat)
    requires i <= j <= |a|
    ensures (a + b)[i..j] == a[i..j]
  {
  }

  lemma ChunkShift(a: string, b: string, j: nat)
    requires j < |b|
    ensures Chunk(a + b, |a| + j) == Chunk(b, j) && FoundAt(a + b, |a| + j) == FoundAt(b, j)
    ensures After(a + b, |a| + j) == |a| + After(b, j)
  {
    MatchShift(a, b, j);
    if MatchesAt(b, j) {
      SameMatchShift(a, b, j);
      SameMatchSameChunk(a + b, |a| + j, b, j);
    }
  }

  lemma SameScan(s: string, k: nat, m: string, j: nat)
    requires k < |s| && j < |m| && Chunk(s, k) == Chunk(m, j) && FoundAt(s, k) == FoundAt(m, j)
    requires TranslateFrom(s, After(s, k)) == TranslateFrom(m, After(m, j))
    requires RefGroupsFrom(s, After(s, k)) == RefGroupsFrom(m, After(m, j))
    ensures TranslateFrom(s, k) == TranslateFrom(m, j)
    ensures RefGroupsFrom(s, k) == RefGroupsFrom(m, j)
  {
  }

  /** `s` is some text followed by `b`, and `k` is `j` characters into `b`. */
  lemma {:induction false} Shift(a: string, b: string, s: string, k: nat, j: nat)
    requires s == a + b && j <= |b| && k == |a| + j
    ensures TranslateFrom(s, k) == TranslateFrom(b, j)
    ensures RefGroupsFrom(s, k) == RefGroupsFrom(b, j)
    decreases |b| - j
  {
    if j < |b| {
      ChunkShift(a, b, j);
      Shift(a, b, s, After(s, k), After(b, j));
      SameScan(s, k, b, j);
    }
  }

  lemma RunConcat(a: string, b: string, k: nat)
    requires k <= |a| && (RunEnd(a, k) < |a| || b == "" || !IsWord(b[0]))
    ensures RunEnd(a + b, k) == RunEnd(a, k)
  {
    RunIsWords(a, k);
    assert forall i :: k <= i < RunEnd(a, k) ==> (a + b)[i] == a[i];
    RunReaches(a + b, k, RunEnd(a, k));
  }

  lemma MatchConcat(a: string, b: string, k: nat)
    requires k < |a| && b != "" && Seam(a, b)
    ensures MatchesAt(a + b, k) <==> MatchesAt(a, k)
    ensures MatchesAt(a, k) ==> MatchEnd(a + b, k) == MatchEnd(a, k) && SameMatch(a + b, k, a, k)
  {
    if IsStart(a[k]) {
      var d := RunEnd(a, k);
      SeamAfterRun(a, b, k);
      if d + 1 < |a| && a[d] == '.' && IsStart(a[d + 1]) {
        SeamAfterRun(a, b, d + 1);
      }
      if MatchesAt(a, k) {
        SliceLeft(a, b, k, d);
        SliceLeft(a, b, d + 1, MatchEnd(a, k));
      }
    }
  }

  lemma SeamAfterRun(a: string, b: string, k: nat)
    requires k < |a| && IsWord(a[k]) && b != "" && Seam(a, b)
    ensures RunEnd(a + b, k) == RunEnd(a, k)
    ensures RunEnd(a, k) == |a| ==> !IsWord(b[0]) && b[0] != '.' && b[0] != '*'
  {
    RunIsWords(a, k);
    assert RunEnd(a, k) == |a| ==> IsWord(a[|a| - 1]);
    RunConcat(a, b, k);
  }

  lemma {:induction false} ConcatFrom(a: string, b: string, k: nat)
    requires Seam(a, b) && k <= |a| && b != ""
    ensures TranslateFrom(a + b, k) == TranslateFrom(a, k) + TranslateFrom(b, 0)
    ensures RefGroupsFrom(a + b, k) == RefGroupsFrom(a, k) + RefGroupsFrom(b, 0)
    decreases |a| - k
  {
    if k == |a| {
      Shift(a, b, a + b, |a|, 0);
    } else {
      MatchConcat(a, b, k);
      if MatchesAt(a, k) {
        SameMatchSameChunk(a + b, k, a, k);
      }
      ConcatFrom(a, b, After(a, k));
      OneScan(a + b, k, a, k, TranslateFrom(b, 0), RefGroupsFrom(b, 0));
    }
  }

  /** Across a seam the text is rewritten, and searched for references, piece by piece. */
  lemma TranslateRefsConcat(a: string, b: string)
    requires Seam(a, b)
    ensures TranslateRefs(a + b) == TranslateRefs(a) + TranslateRefs(b)
    ensures RefGroups(a + b) == RefGroups(a) + RefGroups(b)
  {
    if b == "" {
      assert a + b == a;
    } else {
      ConcatFrom(a, b, 0);
    }
  }

  /** In particular the rewriting can be cut before any space. */
  lemma TranslateRefsBeforeSpace(a: string, b: string)
    ensures TranslateRefs(a + " " + b) == TranslateRefs(a) + TranslateRefs(" " + b)
  {
    assert a + " " + b == a + (" " + b);
    TranslateRefsConcat(a, " " + b);
  }

  // ---------------------------------------------------------------------------------------
  // Rewriting twice

  /** The dot at `i` would be replaced, had the run before it not been used up by the dot before
    * that run. */
  predicate LeftOver(s: string, i: nat)
    requires i < |s|
  {
    s[i] == '.' && NextOk(s, i) && WordStart(s, i) > 0 && s[WordStart(s, i) - 1] == '.' && Replaced(s, WordStart(s, i) - 1)
  }

  /** What the first pass makes of `s`. */
  ghost predicate IsRewritten(s: string, t: string) {
    |t| == |s| && forall j :: 0 <= j < |s| ==> t[j] == if Replaced(s, j) then '_' else s[j]
  }

  lemma {:induction false} RunOfWordStart(s: string, i: nat)
    requires i <= |s|
    ensures forall j :: WordStart(s, i) <= j < i ==> IsWord(s[j])
    ensures WordStart(s, i) > 0 ==> !IsWord(s[WordStart(s, i) - 1])
  {
    if i > 0 && IsWord(s[i - 1]) {
      RunOfWordStart(s, i - 1);
    }
  }

  lemma {:induction false} WordStartOfRewritten(s: string, t: string, i: nat)
    requires i <= |s| && IsRewritten(s, t)
    requires WordStart(s, i) == 0 || !Replaced(s, WordStart(s, i) - 1)
    ensures WordStart(t, i) == WordStart(s, i)
  {
    if i > 0 && IsWord(s[i - 1]) {
      WordStartOfRewritten(s, t, i - 1);
    }
  }

  lemma {:induction false} WordStartReaches(t: string, k: nat, i: nat)
    requires k <= i <= |t| && forall j :: k <= j < i ==> IsWord(t[j])
    ensures WordStart(t, i) <= k
  {
    if k < i {
      WordStartReaches(t, k, i - 1);
    }
  }

  lemma NextStaysOk(s: string, t: string, i: nat)
    requires i < |s| && IsRewritten(s, t) && s[i] == '.'
    ensures NextOk(t, i) <==> NextOk(s, i)
  {
    assert i + 1 < |s| ==> WordStart(s, i + 1) == i + 1;
  }

  lemma UnusedRunStays(s: string, t: string, i: nat)
    requires i < |s| && IsRewritten(s, t)
    requires WordStart(s, i) == 0 || !Replaced(s, WordStart(s, i) - 1)
    ensures WordStart(t, i) == WordStart(s, i)
    ensures HasStart(t, WordStart(s, i), i) <==> HasStart(s, WordStart(s, i), i)
  {
    WordStartOfRewritten(s, t, i);
    RunOfWordStart(s, i);
    assert forall j :: WordStart(s, i) <= j < i ==> t[j] == s[j];
  }

  /** A dot the second pass replaces is one the first had left over. */
  lemma SecondPassLeftOver(s: string, t: string, i: nat)
    requires i < |s| && IsRewritten(s, t) && Replaced(t, i)
    ensures LeftOver(s, i)
  {
    NextStaysOk(s, t, i);
    if WordStart(s, i) == 0 || !Replaced(s, WordStart(s, i) - 1) {
      UnusedRunStays(s, t, i);
    }
  }

  /** A dot left over is replaced by the second pass, or the one before it is. */
  lemma LeftOverSecondPass(s: string, t: string, i: nat)
    requires i < |s| && IsRewritten(s, t) && LeftOver(s, i)
    ensures exists j :: 0 <= j < |t| && Replaced(t, j)
  {
    var w := WordStart(s, i);
    NextStaysOk(s, t, i);
    RunOfWordStart(s, i);
    WordStartReaches(t, w - 1, i);
    assert IsStart(t[w - 1]);
    assert HasStart(t, WordStart(t, i), i);
    assert Replaced(t, i) || Replaced(t, WordStart(t, i) - 1);
  }

  /** One pass is enough exactly for text in which no dot is left over. */
  lemma TranslateRefsIdempotentIff(s: string)
    ensures TranslateRefs(TranslateRefs(s)) == TranslateRefs(s) <==> forall i :: 0 <= i < |s| ==> !LeftOver(s, i)
  {
    var t := TranslateRefs(s);
    TranslateRefsSpec(s);
    TranslateRefsSpec(t);
    if i :| 0 <= i < |s| && LeftOver(s, i) {
      LeftOverSecondPass(s, t, i);
    } else {
      forall i | 0 <= i < |t| ensures !Replaced(t, i) {
        if Replaced(t, i) {
          SecondPassLeftOver(s, t, i);
          assert false;
        }
      }
      assert TranslateRefs(t) == t;
    }
  }

  /** No two dots with nothing but word characters between them. */
  predicate ChainFree(s: string) {
    forall i :: 0 <= i < |s| && s[i] == '.' && WordStart(s, i) > 0 ==> s[WordStart(s, i) - 1] != '.'
  }

  /** In particular for text without dotted chains. */
  lemma TranslateRefsIdempotent(s: string)
    requires ChainFree(s)
    ensures TranslateRefs(TranslateRefs(s)) == TranslateRefs(s)
  {
    TranslateRefsIdempotentIff(s);
  }

  /** It is not enough for this chain, whose second dot the first pass leaves over. */
  lemma ChainsAreRewrittenTwice()
    ensures TranslateRefs("a.b.c") == "a_b.c" && TranslateRefs("a_b.c") == "a_b_c"
    ensures LeftOver("a.b.c", 3) && TranslateRefs(TranslateRefs("a.b.c")) != TranslateRefs("a.b.c")
  {
    FirstPass("a.b.c");
    SecondPass("a_b.c");
    TranslateRefsIdempotentIff("a.b.c");
  }

  lemma FirstPass(s: string)
    requires s == "a.b.c"
    ensures TranslateRefs(s) == "a_b.c" && LeftOver(s, 3)
  {
    TranslateRefsSpec(s);
    WordStartIs(s, 0, 1);
    WordStartIs(s, 2, 3);
    assert IsStart(s[0]);
    assert HasStart(s, 0, 1);
    assert Replaced(s, 1) && !Replaced(s, 3);
  }

  lemma SecondPass(s: string)
    requires s == "a_b.c"
    ensures TranslateRefs(s) == "a_b_c"
  {
    TranslateRefsSpec(s);
    WordStartIs(s, 0, 3);
    assert IsStart(s[0]);
    assert HasStart(s, 0, 3);
    assert Replaced(s, 3);
  }

  /** An identifier starts with a letter or an underscore, and goes on with those and digits. */
  lemma WordChars(c: char)
    ensures IsStart(c) <==> c in "abcdefghijklmnopqrstuvwxyz" || c in "ABCDEFGHIJKLMNOPQRSTUVWXYZ" || c == '_'
    ensures IsWord(c) <==> IsStart(c) || c in "0123456789"
  {
    CharIn("abcdefghijklmnopqrstuvwxyz", c, 'a', 26);
    CharIn("ABCDEFGHIJKLMNOPQRSTUVWXYZ", c, 'A', 26);
    CharIn("0123456789", c, '0', 10);
  }

  lemma CharIn(s: string, c: char, first: char, n: nat)
    requires |s| == n && first as int + n < 0xD800 && forall i :: 0 <= i < n ==> s[i] as int == first as int + i
    ensures c in s <==> first as int <= c as int < first as int + n
  {
    if first as int <= c as int < first as int + n {
      assert s[c as int - first as int] == c;
    }
  }
}
