/** Parsing a printed SELECT gives its parts back. */
module Clauses {
  import opened Wrappers
  import opened Schema
  import opened Text
  import opened Parser

  /** A clause keyword: spaces at both ends, and inside at most the one before BY. */
  predicate KeywordShape(k: string) {
    && |k| >= 2 && k[0] == ' '
    && forall d :: 1 <= d < |k| - 1 && k[d] == ' ' ==> |k| - d == 4 && k[d..] == " BY "
  }

  predicate NoneBefore(a: string, rest: string, k: string) {
    forall j :: 0 <= j < |a| ==> !OccursAt(a + rest, k, j)
  }

  /** Nothing, or text that starts the next clause. */
  predicate ClauseOrEnd(rest: string) {
    rest == "" || (rest[0] == ' ' && !(" BY " <= rest))
  }

  /** A keyword cannot begin inside a segment that has none once a space is put after it. */
  lemma SegmentFree(seg: string, rest: string, k: string)
    requires KeywordShape(k) && Index(seg + " ", k) < 0 && ClauseOrEnd(rest)
    ensures NoneBefore(seg, rest, k)
  {
    forall j | 0 <= j < |seg| ensures !OccursAt(seg + rest, k, j) {
      if OccursAt(seg + rest, k, j) {
        KeywordInside(seg, rest, k, j);
        assert false;
      }
    }
  }

  lemma KeywordInside(seg: string, rest: string, k: string, j: nat)
    requires KeywordShape(k) && ClauseOrEnd(rest) && j < |seg| && OccursAt(seg + rest, k, j)
    ensures OccursAt(seg + " ", k, j)
  {
    var all := seg + rest;
    assert forall i :: 0 <= i < |k| ==> k[i] == all[j + i];
    if j + |k| > |seg| {
      var d := |seg| - j;
      assert k[d] == rest[0] == ' ';
      if d < |k| - 1 {
        assert false;
      }
    }
    assert (seg + " ")[j..j + |k|] == k;
  }

  lemma OccursShift(a: string, b: string, k: string, i: nat)
    ensures OccursAt(a + b, k, |a| + i) <==> OccursAt(b, k, i)
  {
    if i + |k| <= |b| {
      assert (a + b)[|a| + i..|a| + i + |k|] == b[i..i + |k|];
    }
  }

  lemma NoneBeforeConcat(a: string, b: string, rest: string, k: string)
    requires NoneBefore(a, b + rest, k) && NoneBefore(b, rest, k)
    ensures NoneBefore(a + b, rest, k)
  {
    assert a + b + rest == a + (b + rest);
    forall j | 0 <= j < |a + b| ensures !OccursAt(a + b + rest, k, j) {
      if j >= |a| {
        OccursShift(a, b + rest, k, j - |a|);
      }
    }
  }

  lemma IndexAfter(a: string, rest: string, k: string)
    requires NoneBefore(a, rest, k)
    ensures Index(a + rest, k) == if Index(rest, k) < 0 then -1 else |a| + Index(rest, k)
  {
    var i, r := Index(a + rest, k), Index(rest, k);
    if i >= 0 {
      assert i >= |a|;
      OccursShift(a, rest, k, i - |a|);
    }
    if r >= 0 {
      OccursShift(a, rest, k, r);
    }
  }

  lemma {:induction false} EarliestAfter(a: string, rest: string, keywords: seq<string>)
    requires forall i :: 0 <= i < |keywords| ==> NoneBefore(a, rest, keywords[i])
    ensures Earliest(a + rest, keywords) == |a| + Earliest(rest, keywords)
  {
    if keywords != [] {
      EarliestAfter(a, rest, keywords[..|keywords| - 1]);
      IndexAfter(a, rest, keywords[|keywords| - 1]);
    }
  }

  lemma {:induction false} EarliestAtStart(text: string, keywords: seq<string>, i: nat)
    requires i < |keywords| && OccursAt(text, keywords[i], 0)
    ensures Earliest(text, keywords) == 0
  {
    var last := keywords[|keywords| - 1];
    if i < |keywords| - 1 {
      EarliestAtStart(text, keywords[..|keywords| - 1], i);
    } else {
      assert Index(text, last) == 0;
    }
  }

  // ---------------------------------------------------------------------------------------

  const KEYWORDS := [" FROM ", " WHERE ", " ORDER ", " LIMIT ", " GROUP ", " HAVING ", " UNION "]

  /** No space-delimited clause keyword, not even with a space put before and after. */
  predicate Free(text: string) {
    forall i :: 0 <= i < |KEYWORDS| ==> Index(Upper(" " + text + " "), KEYWORDS[i]) < 0
  }

  predicate StartsTrailing(tail: string) {
    exists i :: 0 <= i < |TRAILING| && OccursAt(Upper(tail), TRAILING[i], 0)
  }

  function WhereText(where: string): string {
    if where == "" then "" else " WHERE " + where
  }

  function SelectText(cols: string, table: string, where: string, tail: string): string {
    "SELECT " + cols + " FROM " + table + WhereText(where) + tail
  }

  /** Parts a canonical SELECT is made of; an empty `where` or `tail` means there is none. */
  predicate Canonical(cols: string, table: string, where: string, tail: string) {
    && Trimmed(cols) && Trimmed(table) && Trimmed(where)
    && Free(cols) && Free(table)
    && (tail == "" || StartsTrailing(tail))
    && (where == "" ==> Index(Upper(tail), " WHERE ") < 0)
  }

  ghost predicate NoneOf(a: string, rest: string, keywords: seq<string>) {
    forall i :: 0 <= i < |keywords| ==> NoneBefore(a, rest, keywords[i])
  }

  /** With the tail after it, no keyword that ends a WHERE begins in its text, and no trailing clause
    * there or right before it. */
  ghost predicate Carried(where: string, tail: string) {
    NoneOf(Upper(where), Upper(tail), AFTER_WHERE) && NoneOf(Upper(" " + where), Upper(tail), TRAILING)
  }

  lemma TrailingShape(i: nat)
    requires i < |TRAILING|
    ensures KeywordShape(TRAILING[i])
    ensures exists j :: 2 <= j < |KEYWORDS| && KEYWORDS[j] <= TRAILING[i]
  {
    assert KEYWORDS[2] == " ORDER " && KEYWORDS[3] == " LIMIT " && KEYWORDS[4] == " GROUP " && KEYWORDS[5] == " HAVING ";
    assert " ORDER BY " == " ORDER " + "BY " && " GROUP BY " == " GROUP " + "BY ";
  }

  /** A part that is free of keywords has none of the shorter or longer forms either. */
  lemma FreeOf(text: string, k: string, j: nat)
    requires Free(text) && j < |KEYWORDS| && KEYWORDS[j] <= k
    ensures Index(Upper(" " + text) + " ", k) < 0 && Index(Upper(text) + " ", k) < 0
  {
    var padded := Upper(" " + text + " ");
    UpperConcat(" " + text, " ");
    UpperConcat(" ", text);
    var u := Upper(text) + " ";
    assert padded == Upper(" " + text) + " " && padded == " " + u;
    if i :| OccursAt(padded, k, i) {
      assert k[..|KEYWORDS[j]|] == padded[i..i + |KEYWORDS[j]|];
      assert OccursAt(padded, KEYWORDS[j], i);
      assert false;
    }
    if i :| OccursAt(u, k, i) {
      OccursShift(" ", u, k, i);
      assert false;
    }
  }

  lemma TailStartsClause(tail: string)
    requires tail == "" || StartsTrailing(tail)
    ensures ClauseOrEnd(Upper(tail))
    ensures Earliest(Upper(tail), TRAILING) == 0 && Earliest(Upper(tail), AFTER_WHERE) == 0 && Earliest(Upper(tail), AFTER_TABLE) == 0
  {
    var t := Upper(tail);
    if tail != "" {
      var i :| 0 <= i < |TRAILING| && OccursAt(t, TRAILING[i], 0);
      assert TRAILING[i] <= t;
      EarliestAtStart(t, TRAILING, i);
      TrailingStarts(t, i);
      assert AFTER_WHERE[i] <= t && AFTER_TABLE[i + 1] == AFTER_WHERE[i];
      EarliestAtStart(t, AFTER_WHERE, i);
      EarliestAtStart(t, AFTER_TABLE, i + 1);
    }
  }

  /** Every trailing clause is one that ends a table name or a WHERE. */
  lemma TrailingStarts(t: string, i: nat)
    requires i < |TRAILING| && TRAILING[i] <= t
    ensures AFTER_WHERE[i] <= t && ClauseOrEnd(t)
  {
    assert AFTER_WHERE[i] <= TRAILING[i];
    assert t[0] == TRAILING[i][0] && t[1] == TRAILING[i][1];
  }

  lemma WhereStartsClause(where: string, rest: string)
    requires where != ""
    ensures ClauseOrEnd(Upper(WhereText(where)) + rest)
    ensures Index(Upper(WhereText(where)) + rest, " WHERE ") == 0
  {
    var t := Upper(WhereText(where)) + rest;
    UpperConcat(" WHERE ", where);
    assert Upper(" WHERE ") == " WHERE ";
    assert t == " WHERE " + (Upper(where) + rest);
    assert OccursAt(t, " WHERE ", 0);
    assert t[1] == 'W';
  }

  lemma TableParses(table: string, rest: string)
    requires Trimmed(table) && Free(table) && ClauseOrEnd(Upper(rest)) && Earliest(Upper(rest), AFTER_TABLE) == 0
    ensures TableOf(table + rest) == table
    ensures Earliest(Upper(table + rest), AFTER_TABLE) == |table|
    ensures Index(Upper(table + rest), " WHERE ")
            == if Index(Upper(rest), " WHERE ") < 0 then -1 else |table| + Index(Upper(rest), " WHERE ")
  {
    UpperConcat(table, rest);
    var t, r := Upper(table), Upper(rest);
    forall i | 0 <= i < |AFTER_TABLE| ensures NoneBefore(t, r, AFTER_TABLE[i]) {
      AfterTableFree(table, r, i);
    }
    EarliestAfter(t, r, AFTER_TABLE);
    TrimTrimmed(table);
    assert (table + rest)[..|table|] == table;
    assert NoneBefore(t, r, AFTER_TABLE[0]);
    IndexAfter(t, r, " WHERE ");
  }

  lemma TrimsShorter(s: string)
    ensures |TrimSpace(s)| <= |s|
  {
    TrimLeftShorter(s);
    TrimRightShorter(TrimLeft(s));
  }

  lemma TrimLeftShorter(s: string)
    ensures |TrimLeft(s)| <= |s|
  {
  }

  lemma TrimRightShorter(s: string)
    ensures |TrimRight(s)| <= |s|
  {
  }

  lemma EarliestAtMost(text: string, keywords: seq<string>, i: nat, j: nat)
    requires i < |keywords| && OccursAt(text, keywords[i], j)
    ensures Earliest(text, keywords) <= j
  {
    EarliestIsFirst(text, keywords);
    assert Occurs(text, keywords, j);
  }

  /** The first keyword is right after `a`, where `rest` begins with one, exactly when none begins
    * in `a`. */
  lemma EarliestIff(a: string, rest: string, keywords: seq<string>)
    requires Earliest(rest, keywords) == 0
    ensures NoneOf(a, rest, keywords) ==> Earliest(a + rest, keywords) == |a|
    ensures !NoneOf(a, rest, keywords) ==> Earliest(a + rest, keywords) < |a|
  {
    if NoneOf(a, rest, keywords) {
      EarliestAfter(a, rest, keywords);
    } else {
      var i :| 0 <= i < |keywords| && !NoneBefore(a, rest, keywords[i]);
      var j :| 0 <= j < |a| && OccursAt(a + rest, keywords[i], j);
      EarliestAtMost(a + rest, keywords, i, j);
    }
  }

  lemma WhereParsesIff(where: string, tail: string)
    requires Trimmed(where) && (tail == "" || StartsTrailing(tail))
    ensures var w := where + tail;
            TrimSpace(w[..Earliest(Upper(w), AFTER_WHERE)]) == where <==> NoneOf(Upper(where), Upper(tail), AFTER_WHERE)
  {
    var w := where + tail;
    UpperConcat(where, tail);
    TailStartsClause(tail);
    EarliestIff(Upper(where), Upper(tail), AFTER_WHERE);
    TrimTrimmed(where);
    assert w[..|where|] == where;
    TrimsShorter(w[..Earliest(Upper(w), AFTER_WHERE)]);
  }

  /** The text from the table name on: the table name comes back whole, and the WHERE if nothing
    * in it ends it early. */
  lemma AfterFromParsesIff(cols: string, table: string, where: string, tail: string)
    requires Canonical(cols, table, where, tail)
    ensures TableOf(table + (WhereText(where) + tail)) == table
    ensures Earliest(Upper(table + (WhereText(where) + tail)), AFTER_TABLE) == |table|
    ensures where != "" ==> Index(Upper(table + (WhereText(where) + tail)), " WHERE ") == |table|
    ensures WhereOf(table + (WhereText(where) + tail)) == where <==> where == "" || NoneOf(Upper(where), Upper(tail), AFTER_WHERE)
  {
    var rest := WhereText(where) + tail;
    UpperConcat(WhereText(where), tail);
    TailStartsClause(tail);
    if where == "" {
      assert rest == tail;
      TableParses(table, rest);
    } else {
      WhereStartsClause(where, Upper(tail));
      EarliestAtStart(Upper(rest), AFTER_TABLE, 0);
      TableParses(table, rest);
      WhereAt(table, where, tail);
    }
  }

  lemma DropTwo(a: string, b: string, c: string, d: string)
    ensures (a + (b + c + d))[|a| + |b|..] == c + d
  {
  }

  lemma Regroup(a: string, b: string, c: string, d: string, e: string, f: string)
    ensures a + b + c + d + e + f == a + b + c + (d + (e + f))
  {
  }

  lemma Assoc(a: string, b: string, c: string)
    ensures a + b + c == a + (b + c)
  {
  }

  lemma WhereAt(table: string, where: string, tail: string)
    requires where != "" && Trimmed(where) && (tail == "" || StartsTrailing(tail))
    requires Index(Upper(table + (WhereText(where) + tail)), " WHERE ") == |table|
    ensures WhereOf(table + (WhereText(where) + tail)) == where <==> NoneOf(Upper(where), Upper(tail), AFTER_WHERE)
  {
    WhereParsesIff(where, tail);
    DropTwo(table, " WHERE ", where, tail);
  }

  lemma AfterTableFree(text: string, rest: string, i: nat)
    requires i < |AFTER_TABLE| && Free(text) && ClauseOrEnd(rest)
    ensures NoneBefore(Upper(text), rest, AFTER_TABLE[i])
  {
    assert KEYWORDS[i + 1] == AFTER_TABLE[i];
    FreeOf(text, AFTER_TABLE[i], i + 1);
    SegmentFree(Upper(text), rest, AFTER_TABLE[i]);
  }

  lemma SelectParses(cols: string, afterFrom: string)
    requires Free(cols)
    ensures Index(Upper("SELECT " + cols + " FROM " + afterFrom), " FROM ") == 7 + |cols|
  {
    var c, rest := Upper(" " + cols), Upper(" FROM " + afterFrom);
    Assoc("SELECT", " ", cols);
    assert "SELECT" + " " == "SELECT ";
    Assoc("SELECT " + cols, " FROM ", afterFrom);
    UpperConcat("SELECT" + (" " + cols), " FROM " + afterFrom);
    UpperWord("SELECT", cols);
    UpperConcat(" FROM ", afterFrom);
    assert Upper(" FROM ") == " FROM ";
    assert KEYWORDS[0] == " FROM ";
    assert rest[1] == 'F' && " FROM " <= rest;
    BeforeFrom(cols, rest, " FROM ", 0);
    IndexAfter("SELECT" + c, rest, " FROM ");
    assert Index(rest, " FROM ") == 0;
  }

  /** Nothing begins in SELECT and the select list. */
  lemma BeforeFrom(cols: string, rest: string, k: string, j: nat)
    requires Free(cols) && KeywordShape(k) && j < |KEYWORDS| && KEYWORDS[j] <= k && ClauseOrEnd(rest)
    ensures NoneBefore("SELECT" + Upper(" " + cols), rest, k)
  {
    FreeOf(cols, k, j);
    SegmentFree(Upper(" " + cols), rest, k);
    NoneBeforeConcat("SELECT", Upper(" " + cols), rest, k);
  }

  lemma ClauseWordFree(word: string, rest: string, k: string)
    requires |word| > 1 && word[0] == ' ' && (forall i :: 1 <= i < |word| ==> word[i] != ' ')
    requires |k| >= 2 && k[0] == ' ' && k[1] != word[1]
    ensures NoneBefore(word, rest, k)
  {
    forall j | 0 <= j < |word| ensures !OccursAt(word + rest, k, j) {
      assert (word + rest)[j] == word[j] && (word + rest)[1] == word[1];
    }
  }

  /** A clause keyword and the part after it: a trailing clause begins there exactly when one
    * begins in the part, with the space before it. */
  lemma ClauseFreeIff(word: string, text: string, rest: string, i: nat)
    requires i < |TRAILING| && (word == " FROM" || word == " WHERE")
    ensures NoneBefore(word + Upper(" " + text), rest, TRAILING[i]) <==> NoneBefore(Upper(" " + text), rest, TRAILING[i])
  {
    var k, t := TRAILING[i], Upper(" " + text);
    ClauseWordFree(word, t + rest, k);
    if NoneBefore(t, rest, k) {
      NoneBeforeConcat(word, t, rest, k);
    } else {
      var j :| 0 <= j < |t| && OccursAt(t + rest, k, j);
      assert word + t + rest == word + (t + rest);
      OccursShift(word, t + rest, k, j);
    }
  }

  lemma FreePart(text: string, rest: string, i: nat)
    requires i < |TRAILING| && Free(text) && ClauseOrEnd(rest)
    ensures NoneBefore(Upper(" " + text), rest, TRAILING[i])
  {
    var k := TRAILING[i];
    TrailingShape(i);
    var j :| 2 <= j < |KEYWORDS| && KEYWORDS[j] <= k;
    FreeOf(text, k, j);
    SegmentFree(Upper(" " + text), rest, k);
  }

  /** SELECT, FROM and WHERE with their parts, in capitals. */
  function Head(cols: string, table: string, where: string): string {
    "SELECT" + Upper(" " + cols) + (" FROM" + Upper(" " + table)) + (if where == "" then "" else " WHERE" + Upper(" " + where))
  }

  lemma HeadIsUpper(cols: string, table: string, where: string)
    ensures Upper("SELECT " + cols + " FROM " + table + WhereText(where)) == Head(cols, table, where)
  {
    var a, b, c := "SELECT" + (" " + cols), " FROM" + (" " + table), if where == "" then "" else " WHERE" + (" " + where);
    Assoc("SELECT", " ", cols);
    Assoc(" FROM", " ", table);
    Assoc(" WHERE", " ", where);
    assert "SELECT" + " " == "SELECT " && " FROM" + " " == " FROM " && " WHERE" + " " == " WHERE ";
    Assoc("SELECT " + cols, " FROM ", table);
    UpperConcat(a + b, c);
    UpperConcat(a, b);
    UpperWord("SELECT", cols);
    UpperWord(" FROM", table);
    UpperWord(" WHERE", where);
  }

  lemma UpperWord(word: string, text: string)
    requires word == "SELECT" || word == " FROM" || word == " WHERE"
    ensures Upper(word + (" " + text)) == word + Upper(" " + text)
  {
    UpperConcat(word, " " + text);
    assert Upper(word) == word;
  }

  /** Select list and table name: no trailing clause begins there. */
  lemma FrontFree(cols: string, table: string, rest: string, i: nat)
    requires i < |TRAILING| && Free(cols) && Free(table) && ClauseOrEnd(rest)
    ensures NoneBefore("SELECT" + Upper(" " + cols) + (" FROM" + Upper(" " + table)), rest, TRAILING[i])
  {
    var k, b := TRAILING[i], " FROM" + Upper(" " + table);
    TrailingShape(i);
    var j :| 2 <= j < |KEYWORDS| && KEYWORDS[j] <= k;
    FreePart(table, rest, i);
    ClauseFreeIff(" FROM", table, rest, i);
    assert (b + rest)[0] == ' ' && (b + rest)[1] == 'F';
    BeforeFrom(cols, b + rest, k, j);
    NoneBeforeConcat("SELECT" + Upper(" " + cols), b, rest, k);
  }

  /** A trailing clause begins in the head exactly when one begins in its WHERE. */
  lemma HeadFreeIff(cols: string, table: string, where: string, rest: string, i: nat)
    requires i < |TRAILING| && Free(cols) && Free(table) && ClauseOrEnd(rest)
    ensures NoneBefore(Head(cols, table, where), rest, TRAILING[i])
            <==> where == "" || NoneBefore(Upper(" " + where), rest, TRAILING[i])
  {
    var k := TRAILING[i];
    var front, c := "SELECT" + Upper(" " + cols) + (" FROM" + Upper(" " + table)), if where == "" then "" else " WHERE" + Upper(" " + where);
    assert Head(cols, table, where) == front + c;
    if where == "" {
      assert front + c == front;
      FrontFree(cols, table, rest, i);
    } else {
      assert (c + rest)[0] == ' ' && (c + rest)[1] == 'W';
      FrontFree(cols, table, c + rest, i);
      ClauseFreeIff(" WHERE", where, rest, i);
      ConcatIff(front, c, rest, k);
    }
  }

  lemma ConcatIff(a: string, b: string, rest: string, k: string)
    requires NoneBefore(a, b + rest, k)
    ensures NoneBefore(a + b, rest, k) <==> NoneBefore(b, rest, k)
  {
    if NoneBefore(b, rest, k) {
      NoneBeforeConcat(a, b, rest, k);
    } else {
      var j :| 0 <= j < |b| && OccursAt(b + rest, k, j);
      assert a + b + rest == a + (b + rest);
      OccursShift(a, b + rest, k, j);
    }
  }

  lemma TrailingParsesIff(cols: string, table: string, where: string, tail: string)
    requires Canonical(cols, table, where, tail)
    ensures Trailing(SelectText(cols, table, where, tail)) == tail <==> where == "" || NoneOf(Upper(" " + where), Upper(tail), TRAILING)
  {
    var front := "SELECT " + cols + " FROM " + table + WhereText(where);
    HeadIsUpper(cols, table, where);
    UpperConcat(front, tail);
    TailStartsClause(tail);
    forall i | 0 <= i < |TRAILING|
      ensures NoneBefore(Upper(front), Upper(tail), TRAILING[i]) <==> where == "" || NoneBefore(Upper(" " + where), Upper(tail), TRAILING[i])
    {
      HeadFreeIff(cols, table, where, Upper(tail), i);
    }
    EarliestIff(Upper(front), Upper(tail), TRAILING);
    assert (front + tail)[|front|..] == tail;
  }

  lemma SelectSlices(cols: string, afterFrom: string)
    ensures var sql := "SELECT " + cols + " FROM " + afterFrom;
            sql[7..7 + |cols|] == cols && sql[7 + |cols| + 6..] == afterFrom
  {
  }

  lemma ParsedPieces(sql: string, cols: string, afterFrom: string)
    requires Trimmed(cols) && |sql| == 7 + |cols| + 6 + |afterFrom|
    requires Index(Upper(sql), " FROM ") == 7 + |cols|
    requires sql[7..7 + |cols|] == cols && sql[7 + |cols| + 6..] == afterFrom
    ensures Parsed(sql) == Success(ParsedQuery(TableOf(afterFrom), if cols == "*" then [] else ItemsOf(Split(cols)), cols == "*",
                                               WhereOf(afterFrom), sql))
  {
    TrimTrimmed(cols);
  }

  /** Whatever the statement, it is parsed without the blanks around it. */
  lemma ParsedTrimmed(sql: string)
    ensures ParsedSQL(sql).Success? ==> ParsedSQL(sql).value.rawSQL == TrimSpace(sql)
  {
  }

  /** Blanks around the select list do not matter. */
  lemma BlanksAroundList(a: string, cols: string, b: string, afterFrom: string)
    requires Blank(a) && Blank(b) && cols != "" && Trimmed(cols) && Free(a + cols + b)
    ensures var r := Parsed("SELECT " + (a + cols + b) + " FROM " + afterFrom);
            && r.Success? && r.value.allColumns == (cols == "*")
            && r.value.columns == (if cols == "*" then [] else ItemsOf(Split(cols)))
  {
    SelectParses(a + cols + b, afterFrom);
    SelectSlices(a + cols + b, afterFrom);
    TrimSpaceIs(a, cols, b);
  }

  /** Nor do blanks around the statement. */
  lemma BlanksAroundStatement(a: string, sql: string, b: string)
    requires Blank(a) && Blank(b) && sql != "" && Trimmed(sql)
    ensures ParsedSQL(a + sql + b) == ParsedSQL(sql)
  {
    TrimSpaceIs(a, sql, b);
    TrimTrimmed(sql);
  }

  /** All parts but the WHERE come back in any case. */
  lemma ParsedParts(cols: string, table: string, where: string, tail: string)
    requires Canonical(cols, table, where, tail)
    ensures var sql := SelectText(cols, table, where, tail);
            Parsed(sql) == Success(ParsedQuery(table, if cols == "*" then [] else ItemsOf(Split(cols)), cols == "*",
                                               WhereOf(table + (WhereText(where) + tail)), sql))
  {
    var afterFrom := table + (WhereText(where) + tail);
    Regroup("SELECT ", cols, " FROM ", table, WhereText(where), tail);
    SelectParses(cols, afterFrom);
    SelectSlices(cols, afterFrom);
    ParsedPieces(SelectText(cols, table, where, tail), cols, afterFrom);
    AfterFromParsesIff(cols, table, where, tail);
  }

  /** Printing a canonical SELECT and taking it apart again gives back its parts exactly when its
    * WHERE text is carried; put together they are the whole statement, nothing lost and nothing
    * twice. */
  lemma ParsePrintedIff(cols: string, table: string, where: string, tail: string)
    requires Canonical(cols, table, where, tail)
    ensures var sql := SelectText(cols, table, where, tail);
            (&& Parsed(sql) == Success(ParsedQuery(table, if cols == "*" then [] else ItemsOf(Split(cols)), cols == "*", where, sql))
             && Trailing(sql) == tail)
            <==> where == "" || Carried(where, tail)
  {
    ParsedParts(cols, table, where, tail);
    AfterFromParsesIff(cols, table, where, tail);
    TrailingParsesIff(cols, table, where, tail);
  }

  /** In particular it does so for a WHERE text without the keywords of later clauses; FROM and
    * WHERE may occur in it. */
  lemma ParsePrinted(cols: string, table: string, where: string, tail: string)
    requires Canonical(cols, table, where, tail) && Carried(where, tail)
    ensures var sql := SelectText(cols, table, where, tail);
            && Parsed(sql) == Success(ParsedQuery(table, if cols == "*" then [] else ItemsOf(Split(cols)), cols == "*", where, sql))
            && Trailing(sql) == tail
  {
    ParsePrintedIff(cols, table, where, tail);
  }

  lemma KeywordOccurs(a: string, word: string, b: string, tail: string, i: nat)
    requires i < |AFTER_WHERE| && Upper(word) == AFTER_WHERE[i]
    ensures !NoneBefore(Upper(a + word + b), Upper(tail), AFTER_WHERE[i])
  {
    UpperConcat(a + word, b);
    UpperConcat(a, word);
    var text := Upper(a + word + b) + Upper(tail);
    assert text == Upper(a) + AFTER_WHERE[i] + (Upper(b) + Upper(tail));
    assert OccursAt(text, AFTER_WHERE[i], |a|);
  }

  /** A keyword of a later clause anywhere in the WHERE text, inside a string literal such as
    * 'in order to' too: parsing succeeds, but with another WHERE text. */
  lemma KeywordCuts(cols: string, table: string, a: string, word: string, b: string, tail: string, i: nat)
    requires i < |AFTER_WHERE| && Upper(word) == AFTER_WHERE[i] && Canonical(cols, table, a + word + b, tail)
    ensures !Carried(a + word + b, tail)
    ensures var sql := SelectText(cols, table, a + word + b, tail);
            Parsed(sql).Success? && Parsed(sql).value.whereClause != a + word + b
  {
    var where := a + word + b;
    KeywordOccurs(a, word, b, tail, i);
    AfterFromParsesIff(cols, table, where, tail);
    ParsedParts(cols, table, where, tail);
  }

  // ---------------------------------------------------------------------------------------
  // The keywords, written out

  predicate EndsWhere(word: string) {
    word == " ORDER " || word == " LIMIT " || word == " GROUP " || word == " HAVING " || word == " UNION "
  }

  predicate EndsTable(word: string) {
    word == " WHERE " || EndsWhere(word)
  }

  predicate StartsTail(word: string) {
    word == " ORDER BY " || word == " LIMIT " || word == " GROUP BY " || word == " HAVING "
  }

  lemma EndsWhereAre(word: string)
    ensures EndsWhere(word) <==> exists i :: 0 <= i < |AFTER_WHERE| && AFTER_WHERE[i] == word
  {
    assert AFTER_WHERE[0] == " ORDER " && AFTER_WHERE[1] == " LIMIT " && AFTER_WHERE[2] == " GROUP ";
    assert AFTER_WHERE[3] == " HAVING " && AFTER_WHERE[4] == " UNION ";
  }

  lemma EndsTableAre(word: string)
    ensures EndsTable(word) <==> exists i :: 0 <= i < |AFTER_TABLE| && AFTER_TABLE[i] == word
  {
    EndsWhereAre(word);
    assert AFTER_TABLE[0] == " WHERE ";
    if EndsWhere(word) {
      var i :| 0 <= i < |AFTER_WHERE| && AFTER_WHERE[i] == word;
      assert AFTER_TABLE[i + 1] == word;
    }
    if i :| 0 <= i < |AFTER_TABLE| && AFTER_TABLE[i] == word && i > 0 {
      assert AFTER_WHERE[i - 1] == word;
    }
  }

  lemma StartsTailAre(word: string)
    ensures StartsTail(word) <==> exists i :: 0 <= i < |TRAILING| && TRAILING[i] == word
  {
    assert TRAILING[0] == " ORDER BY " && TRAILING[1] == " LIMIT " && TRAILING[2] == " GROUP BY " && TRAILING[3] == " HAVING ";
  }

  /** The word at `at`, in capitals, is one of those, and none of them comes earlier. */
  ghost predicate FirstIs(text: string, kind: string -> bool, word: string, at: nat) {
    && kind(word) && OccursAt(text, word, at)
    && forall j, k :: 0 <= j < at && OccursAt(text, k, j) ==> !kind(k)
  }

  ghost predicate Lists(keywords: seq<string>, kind: string -> bool) {
    forall k :: kind(k) <==> exists i :: 0 <= i < |keywords| && keywords[i] == k
  }

  lemma EarliestKind(text: string, keywords: seq<string>, kind: string -> bool)
    requires Lists(keywords, kind)
    ensures Earliest(text, keywords) < |text| ==> exists k :: kind(k) && OccursAt(text, k, Earliest(text, keywords))
  {
    EarliestIsFirst(text, keywords);
    var e := Earliest(text, keywords);
    if e < |text| {
      var j :| 0 <= j < |keywords| && OccursAt(text, keywords[j], e);
      assert kind(keywords[j]);
    }
  }

  lemma EarliestIs(text: string, keywords: seq<string>, kind: string -> bool, word: string, at: nat)
    requires Lists(keywords, kind) && FirstIs(text, kind, word, at)
    ensures Earliest(text, keywords) == at
  {
    var i :| 0 <= i < |keywords| && keywords[i] == word;
    EarliestAtMost(text, keywords, i, at);
    EarliestKind(text, keywords, kind);
  }

  lemma EarliestIsEnd(text: string, keywords: seq<string>, kind: string -> bool)
    requires Lists(keywords, kind) && forall j, k :: 0 <= j < |text| && OccursAt(text, k, j) ==> !kind(k)
    ensures Earliest(text, keywords) == |text|
  {
    EarliestKind(text, keywords, kind);
  }

  /** The trailing clauses are what begins with the first ORDER BY, LIMIT, GROUP BY or HAVING. */
  lemma TrailingFrom(a: string, rest: string, word: string)
    requires FirstIs(Upper(a + rest), StartsTail, word, |a|)
    ensures Trailing(a + rest) == rest
  {
    forall k ensures StartsTail(k) <==> exists i :: 0 <= i < |TRAILING| && TRAILING[i] == k {
      StartsTailAre(k);
    }
    EarliestIs(Upper(a + rest), TRAILING, StartsTail, word, |a|);
  }

  lemma NoTrailing(sql: string)
    requires forall j, k :: 0 <= j < |sql| && OccursAt(Upper(sql), k, j) ==> !StartsTail(k)
    ensures Trailing(sql) == ""
  {
    forall k ensures StartsTail(k) <==> exists i :: 0 <= i < |TRAILING| && TRAILING[i] == k {
      StartsTailAre(k);
    }
    EarliestIsEnd(Upper(sql), TRAILING, StartsTail);
  }

  /** The table name ends at the first WHERE, ORDER, LIMIT, GROUP, HAVING or UNION. */
  lemma TableUntil(a: string, rest: string, word: string)
    requires FirstIs(Upper(a + rest), EndsTable, word, |a|)
    ensures TableOf(a + rest) == TrimSpace(a)
  {
    forall k ensures EndsTable(k) <==> exists i :: 0 <= i < |AFTER_TABLE| && AFTER_TABLE[i] == k {
      EndsTableAre(k);
    }
    EarliestIs(Upper(a + rest), AFTER_TABLE, EndsTable, word, |a|);
    assert (a + rest)[..|a|] == a;
  }

  /** A WHERE begins after the first WHERE and ends at the first ORDER, LIMIT, GROUP, HAVING or UNION
    * after it. */
  lemma WhereUntil(table: string, where: string, a: string, rest: string, word: string)
    requires Upper(where) == " WHERE " && Index(Upper(table + where + (a + rest)), " WHERE ") == |table|
    requires FirstIs(Upper(a + rest), EndsWhere, word, |a|)
    ensures WhereOf(table + where + (a + rest)) == TrimSpace(a)
  {
    forall k ensures EndsWhere(k) <==> exists i :: 0 <= i < |AFTER_WHERE| && AFTER_WHERE[i] == k {
      EndsWhereAre(k);
    }
    EarliestIs(Upper(a + rest), AFTER_WHERE, EndsWhere, word, |a|);
    assert (table + where + (a + rest))[|table| + 7..] == a + rest;
    assert (a + rest)[..|a|] == a;
  }

  lemma TailWordStarts(word: string, rest: string)
    requires StartsTail(Upper(word))
    ensures StartsTrailing(word + rest)
  {
    StartsTailAre(Upper(word));
    var i :| 0 <= i < |TRAILING| && TRAILING[i] == Upper(word);
    UpperConcat(word, rest);
    assert OccursAt(Upper(word + rest), TRAILING[i], 0);
  }

  /** A statement without FROM is an error, and so is one whose FROM comes right after SELECT. */
  lemma ParseFailsIff(sql: string)
    ensures Parsed(sql) == Failure(MissingFrom) <==> forall j :: 0 <= j < |sql| ==> !OccursAt(Upper(sql), " FROM ", j)
    ensures Parsed(sql) == Failure(SliceOutOfRange) <==> exists j :: 0 <= j < 7 && OccursAt(Upper(sql), " FROM ", j)
  {
  }

  // ---------------------------------------------------------------------------------------
  // Keywords in any case

  function WhereWith(word: string, where: string): string {
    if where == "" then "" else word + where
  }

  function TextWith(select: string, cols: string, from: string, table: string, word: string, where: string, tail: string): string {
    select + cols + from + table + WhereWith(word, where) + tail
  }

  lemma WhereWithUpper(word: string, where: string)
    requires Upper(word) == " WHERE "
    ensures Upper(WhereWith(word, where)) == Upper(WhereText(where)) && |WhereWith(word, where)| == |WhereText(where)|
  {
    if where != "" {
      UpperConcat(word, where);
      UpperConcat(" WHERE ", where);
      assert Upper(" WHERE ") == " WHERE ";
    }
  }

  lemma TextWithUpper(select: string, cols: string, from: string, table: string, word: string, where: string, tail: string)
    requires Upper(select) == "SELECT " && Upper(from) == " FROM " && Upper(word) == " WHERE "
    ensures Upper(TextWith(select, cols, from, table, word, where, tail)) == Upper(SelectText(cols, table, where, tail))
  {
    WhereWithUpper(word, where);
    assert Upper("SELECT ") == "SELECT " && Upper(" FROM ") == " FROM ";
    UpperSix(select, cols, from, table, WhereWith(word, where), tail);
    UpperSix("SELECT ", cols, " FROM ", table, WhereText(where), tail);
  }

  lemma UpperSix(a: string, b: string, c: string, d: string, e: string, f: string)
    ensures Upper(a + b + c + d + e + f) == Upper(a) + Upper(b) + Upper(c) + Upper(d) + Upper(e) + Upper(f)
  {
    UpperConcat(a, b);
    UpperConcat(a + b, c);
    UpperConcat(a + b + c, d);
    UpperConcat(a + b + c + d, e);
    UpperConcat(a + b + c + d + e, f);
  }

  lemma SameWhere(table: string, word: string, where: string, tail: string)
    requires Upper(word) == " WHERE "
    requires where != "" ==> Index(Upper(table + (WhereText(where) + tail)), " WHERE ") == |table|
    requires Earliest(Upper(table + (WhereText(where) + tail)), AFTER_TABLE) == |table| && Trimmed(table)
    ensures TableOf(table + (WhereWith(word, where) + tail)) == table
    ensures WhereOf(table + (WhereWith(word, where) + tail)) == WhereOf(table + (WhereText(where) + tail))
  {
    var s, s' := table + (WhereText(where) + tail), table + (WhereWith(word, where) + tail);
    WhereWithUpper(word, where);
    UpperConcat(table, WhereText(where) + tail);
    UpperConcat(WhereText(where), tail);
    UpperConcat(table, WhereWith(word, where) + tail);
    UpperConcat(WhereWith(word, where), tail);
    assert Upper(s) == Upper(s');
    TrimTrimmed(table);
    assert s'[..|table|] == table;
    if where != "" {
      DropTwo(table, " WHERE ", where, tail);
      DropTwo(table, word, where, tail);
    }
  }

  lemma SameSlices(select: string, cols: string, from: string, afterFrom: string)
    requires |select| == 7 && |from| == 6
    ensures var sql := select + cols + from + afterFrom; sql[7..7 + |cols|] == cols && sql[7 + |cols| + 6..] == afterFrom
  {
  }

  /** The case in which the keywords are written does not matter. */
  lemma CaseIgnored(select: string, cols: string, from: string, table: string, word: string, where: string, tail: string)
    requires Upper(select) == "SELECT " && Upper(from) == " FROM " && Upper(word) == " WHERE "
    requires Canonical(cols, table, where, tail) && Carried(where, tail)
    ensures var sql := TextWith(select, cols, from, table, word, where, tail);
            && Parsed(sql) == Success(ParsedQuery(table, if cols == "*" then [] else ItemsOf(Split(cols)), cols == "*", where, sql))
            && Trailing(sql) == tail
  {
    var sql, sql' := SelectText(cols, table, where, tail), TextWith(select, cols, from, table, word, where, tail);
    var after, after' := table + (WhereText(where) + tail), table + (WhereWith(word, where) + tail);
    TextWithUpper(select, cols, from, table, word, where, tail);
    Regroup("SELECT ", cols, " FROM ", table, WhereText(where), tail);
    Regroup(select, cols, from, table, WhereWith(word, where), tail);
    SelectParses(cols, after);
    SameSlices(select, cols, from, after');
    AfterFromParsesIff(cols, table, where, tail);
    SameWhere(table, word, where, tail);
    ParsedPieces(sql', cols, after');
    TrailingParsesIff(cols, table, where, tail);
  }

  /** In small letters, for instance. */
  lemma SmallLetters()
    ensures Upper("select ") == "SELECT " && Upper(" from ") == " FROM " && Upper(" where ") == " WHERE "
  {
  }
}
