/** Taking a SELECT apart: pkg/query/parser.go, and extractTrailingClauses of translator.go. */
module Parser {
  import opened Wrappers
  import opened Schema
  import opened Text

  // ---------------------------------------------------------------------------------------
  // Splitting the select list

  /** The locals of splitColumns after reading some text. */
  datatype Splitting = Splitting(parts: seq<string>, current: string, depth: int)

  function Nesting(c: char): int {
    if c == '(' then 1 else if c == ')' then -1 else 0
  }

  function SplitStep(s: Splitting, c: char): Splitting {
    if c == ',' && s.depth == 0 then Splitting(s.parts + [s.current], "", 0)
    else Splitting(s.parts, s.current + [c], s.depth + Nesting(c))
  }

  function SplitSoFar(text: string): Splitting {
    if text == "" then Splitting([], "", 0)
    else SplitStep(SplitSoFar(text[..|text| - 1]), text[|text| - 1])
  }

  function Split(text: string): seq<string> {
    var s := SplitSoFar(text);
    if s.current != "" then s.parts + [s.current] else s.parts
  }

  method SplitColumns(colList: string) returns (parts: seq<string>)
    ensures parts == Split(colList)
  {
    parts := [];
    var current := "";
    var depth := 0;
    for i := 0 to |colList|
      invariant SplitSoFar(colList[..i]) == Splitting(parts, current, depth)
    {
      assert colList[..i + 1][..i] == colList[..i];
      var ch := colList[i];
      if ch == '(' {
        depth := depth + 1;
        current := current + [ch];
      } else if ch == ')' {
        depth := depth - 1;
        current := current + [ch];
      } else if ch == ',' {
        if depth == 0 {
          parts := parts + [current];
          current := "";
        } else {
          current := current + [ch];
        }
      } else {
        current := current + [ch];
      }
    }
    assert colList[..|colList|] == colList;
    if |current| > 0 {
      parts := parts + [current];
    }
  }

  /** Opening minus closing parentheses. */
  function Depth(text: string): int {
    if text == "" then 0 else Depth(text[..|text| - 1]) + Nesting(text[|text| - 1])
  }

  /** No comma of the text stands outside its parentheses. */
  ghost predicate NoTopComma(text: string) {
    forall i :: 0 <= i < |text| && text[i] == ',' ==> Depth(text[..i]) != 0
  }

  ghost predicate WholeParts(parts: seq<string>) {
    forall i :: 0 <= i < |parts| ==> Depth(parts[i]) == 0 && NoTopComma(parts[i])
  }

  lemma NoTopCommaSnoc(text: string, c: char)
    ensures NoTopComma(text + [c]) <==> NoTopComma(text) && (c == ',' ==> Depth(text) != 0)
    ensures Depth(text + [c]) == Depth(text) + Nesting(c)
  {
    var t := text + [c];
    assert t[..|text|] == text;
    assert forall i :: 0 <= i < |text| ==> t[i] == text[i] && t[..i] == text[..i];
    if NoTopComma(t) {
      assert t[|text|] == c;
    }
  }

  /** Every part ended by a comma. */
  function Glue(parts: seq<string>): string {
    if parts == [] then "" else Glue(parts[..|parts| - 1]) + parts[|parts| - 1] + ","
  }

  lemma {:induction false} GlueIsJoin(parts: seq<string>)
    requires parts != []
    ensures Glue(parts) == Join(parts, ",") + ","
  {
    if |parts| > 1 {
      var front, last := parts[..|parts| - 1], parts[|parts| - 1];
      GlueIsJoin(front);
      assert Join(front, ",") + "," + last + "," == (Join(front, ",") + "," + last) + ",";
    } else {
      assert parts[..0] == [];
      assert Glue([]) + parts[0] + "," == parts[0] + ",";
    }
  }

  ghost predicate SplitInv(text: string, s: Splitting) {
    text == Glue(s.parts) + s.current && WholeParts(s.parts) && NoTopComma(s.current) && s.depth == Depth(s.current)
  }

  lemma SplitStepInv(front: string, s: Splitting, c: char)
    requires SplitInv(front, s)
    ensures SplitInv(front + [c], SplitStep(s, c))
  {
    NoTopCommaSnoc(s.current, c);
  }

  lemma {:induction false} SplitInvariant(text: string)
    ensures SplitInv(text, SplitSoFar(text))
  {
    if text != "" {
      var front, c := text[..|text| - 1], text[|text| - 1];
      SplitInvariant(front);
      SplitStepInv(front, SplitSoFar(front), c);
      assert text == front + [c];
    }
  }

  /** Depth is what it is called, counted over the characters. */
  lemma {:induction false} DepthCounts(text: string)
    ensures Depth(text) + multiset(text)[')'] == multiset(text)['(']
  {
    if text != "" {
      var front, c := text[..|text| - 1], text[|text| - 1];
      DepthCounts(front);
      assert text == front + [c];
    }
  }

  lemma {:induction false} DepthConcat(a: string, b: string)
    ensures Depth(a + b) == Depth(a) + Depth(b)
  {
    if b == "" {
      assert a + b == a;
    } else {
      var front := b[..|b| - 1];
      DepthConcat(a, front);
      assert (a + b)[..|a + b| - 1] == a + front;
    }
  }

  predicate Plainly(text: string) {
    forall i :: 0 <= i < |text| ==> text[i] !in {'(', ')', ','}
  }

  lemma {:induction false} PlainlyFlat(text: string)
    requires Plainly(text)
    ensures Depth(text) == 0
  {
    if text != "" {
      PlainlyFlat(text[..|text| - 1]);
    }
  }

  /** No closing parenthesis comes before its opening one. */
  ghost predicate NeverNegative(args: string) {
    forall i :: 0 <= i <= |args| ==> multiset(args[..i])[')'] <= multiset(args[..i])['(']
  }

  lemma CallDepth(name: string, args: string, i: nat)
    requires Plainly(name) && NeverNegative(args) && |name| < i <= |name| + 1 + |args|
    ensures Depth((name + "(" + args + ")")[..i]) > 0
  {
    var n := i - |name| - 1;
    assert (name + "(" + args + ")")[..i] == name + "(" + args[..n];
    DepthConcat(name + "(", args[..n]);
    DepthConcat(name, "(");
    PlainlyFlat(name);
    assert "("[..0] == "";
    assert Depth("(") == 1;
    DepthCounts(args[..n]);
  }

  /** A function call is one item, whatever commas are between its parentheses. */
  lemma CallStaysWhole(name: string, args: string)
    requires Plainly(name) && NeverNegative(args)
    ensures Split(name + "(" + args + ")") == [name + "(" + args + ")"]
  {
    var call := name + "(" + args + ")";
    forall i | 0 <= i < |call| && call[i] == ',' ensures Depth(call[..i]) != 0 {
      assert i > |name| && i < |call| - 1;
      CallDepth(name, args, i);
    }
    SplitJoin([], call);
    assert [] + [call] == [call];
  }

  /** Joining the parts with commas gives the list back, but for a comma at the very end; every
    * part that is not the last is balanced, and no part has a comma outside its parentheses.
    * This holds of every text, balanced or not. */
  lemma JoinSplit(text: string)
    ensures Join(Split(text), ",") == text || Join(Split(text), ",") + "," == text
    ensures forall i :: 0 <= i < |Split(text)| ==> NoTopComma(Split(text)[i])
    ensures forall i :: 0 <= i < |Split(text)| - 1 ==> Depth(Split(text)[i]) == 0
  {
    SplitInvariant(text);
    var s := SplitSoFar(text);
    if s.current != "" {
      if s.parts != [] {
        GlueIsJoin(s.parts);
      }
    } else if s.parts != [] {
      GlueIsJoin(s.parts);
    }
  }

  lemma {:induction false} SplitOnePart(before: string, parts: seq<string>, part: string)
    requires SplitSoFar(before) == Splitting(parts, "", 0) && NoTopComma(part)
    ensures SplitSoFar(before + part) == Splitting(parts, part, Depth(part))
  {
    if part == "" {
      assert before + part == before;
    } else {
      var front, c := part[..|part| - 1], part[|part| - 1];
      assert part == front + [c];
      NoTopCommaSnoc(front, c);
      SplitOnePart(before, parts, front);
      assert (before + part)[..|before + part| - 1] == before + front;
    }
  }

  lemma {:induction false} SplitGlued(parts: seq<string>)
    requires WholeParts(parts)
    ensures SplitSoFar(Glue(parts)) == Splitting(parts, "", 0)
  {
    if parts != [] {
      var front, last := parts[..|parts| - 1], parts[|parts| - 1];
      SplitGlued(front);
      SplitOnePart(Glue(front), front, last);
      var text := Glue(front) + last;
      assert Glue(parts) == text + ",";
      assert front + [last] == parts;
    }
  }

  /** Splitting takes apart exactly what joining put together. */
  lemma SplitJoin(parts: seq<string>, last: string)
    requires WholeParts(parts) && NoTopComma(last) && last != ""
    ensures Split(Join(parts + [last], ",")) == parts + [last]
  {
    SplitGlued(parts);
    SplitOnePart(Glue(parts), parts, last);
    if parts == [] {
      assert Glue(parts) + last == last;
    } else {
      GlueIsJoin(parts);
    }
  }

  // ---------------------------------------------------------------------------------------
  // Select items

  function WithoutAlias(part: string): string {
    var aliasIdx := Index(Upper(part), " AS ");
    if aliasIdx >= 0 then TrimSpace(part[..aliasIdx]) else part
  }

  /** A trimmed, non-empty item; an empty group name means an unqualified name or a function. */
  function ItemOf(part: string): QualifiedColumn {
    var p := WithoutAlias(part);
    if Contains(p, "(") then QualifiedColumn("", p)
    else if FirstDot(p) >= 0 then
      if HasSuffix(p, ".*") then QualifiedColumn(p[..|p| - 2], "*") else QualifiedOf(p)
    else QualifiedColumn("", p)
  }

  function ItemsOf(parts: seq<string>): seq<QualifiedColumn> {
    if parts == [] then []
    else
      var front, part := ItemsOf(parts[..|parts| - 1]), TrimSpace(parts[|parts| - 1]);
      if part == "" then front else front + [ItemOf(part)]
  }

  method ParseColumnList(colList: string) returns (columns: seq<QualifiedColumn>)
    ensures columns == ItemsOf(Split(colList))
  {
    columns := [];
    var parts := SplitColumns(colList);
    for i := 0 to |parts|
      invariant columns == ItemsOf(parts[..i])
    {
      assert parts[..i + 1][..i] == parts[..i];
      var part := TrimSpace(parts[i]);
      if part == "" {
        continue;
      }
      var column := ParseItem(part);
      columns := columns + [column];
    }
    assert parts[..|parts|] == parts;
  }

  /** The body of that loop for a part that is not blank. */
  method ParseItem(text: string) returns (column: QualifiedColumn)
    ensures column == ItemOf(text)
  {
    var part := text;
    var aliasIdx := Index(Upper(part), " AS ");
    if aliasIdx != -1 {
      part := TrimSpace(part[..aliasIdx]);
    }
    if Contains(part, "(") {
      return QualifiedColumn("", part);
    }
    if Contains(part, ".") {
      if HasSuffix(part, ".*") {
        return QualifiedColumn(part[..|part| - 2], "*");
      } else {
        return QualifiedOf(part);
      }
    } else {
      return QualifiedColumn("", part);
    }
  }

  // ---------------------------------------------------------------------------------------
  // Clauses

  const AFTER_WHERE := [" ORDER ", " LIMIT ", " GROUP ", " HAVING ", " UNION "]
  const AFTER_TABLE := [" WHERE "] + AFTER_WHERE
  const TRAILING := [" ORDER BY ", " LIMIT ", " GROUP BY ", " HAVING "]

  /** The first place where one of the keywords occurs, or the end of the text. */
  function Earliest(text: string, keywords: seq<string>): (i: nat)
    ensures i <= |text|
  {
    if keywords == [] then |text|
    else
      var best, idx := Earliest(text, keywords[..|keywords| - 1]), Index(text, keywords[|keywords| - 1]);
      if idx >= 0 && idx < best then idx else best
  }

  /** One of the keywords occurs at `i`. */
  predicate Occurs(text: string, keywords: seq<string>, i: nat) {
    exists j :: 0 <= j < |keywords| && OccursAt(text, keywords[j], i)
  }

  lemma {:induction false} EarliestIsFirst(text: string, keywords: seq<string>)
    ensures forall i :: 0 <= i < Earliest(text, keywords) ==> !Occurs(text, keywords, i)
    ensures Earliest(text, keywords) < |text| ==> Occurs(text, keywords, Earliest(text, keywords))
  {
    if keywords != [] {
      var front, last := keywords[..|keywords| - 1], keywords[|keywords| - 1];
      EarliestIsFirst(text, front);
      forall i: nat ensures Occurs(text, keywords, i) <==> Occurs(text, front, i) || OccursAt(text, last, i) {
        assert keywords == front + [last];
      }
    }
  }

  /** No keyword occurs before `end`, and unless that is the end of the text, one occurs there. */
  method FindEarliest(text: string, keywords: seq<string>) returns (end: nat)
    ensures end == Earliest(text, keywords)
    ensures forall i :: 0 <= i < end ==> !Occurs(text, keywords, i)
    ensures end < |text| ==> Occurs(text, keywords, end)
  {
    EarliestIsFirst(text, keywords);
    end := |text|;
    for i := 0 to |keywords|
      invariant end == Earliest(text, keywords[..i])
    {
      assert keywords[..i + 1][..i] == keywords[..i];
      var idx := Index(text, keywords[i]);
      if idx != -1 && idx < end {
        end := idx;
      }
    }
    assert keywords[..|keywords|] == keywords;
  }

  datatype ParseError = NotASelect | MissingFrom | SliceOutOfRange

  datatype ParsedQuery = ParsedQuery(tableName: string, columns: seq<QualifiedColumn>, allColumns: bool, whereClause: string, rawSQL: string)

  /** The table name: up to the first clause keyword. */
  function TableOf(afterFrom: string): string {
    TrimSpace(afterFrom[..Earliest(Upper(afterFrom), AFTER_TABLE)])
  }

  function WhereOf(afterFrom: string): string {
    var whereIdx := Index(Upper(afterFrom), " WHERE ");
    if whereIdx < 0 then ""
    else
      var rest := afterFrom[whereIdx + 7..];
      TrimSpace(rest[..Earliest(Upper(rest), AFTER_WHERE)])
  }

  /** The select list: what is between SELECT and FROM. */
  function ListPart(sql: string, fromIdx: nat): string
    requires 7 <= fromIdx <= |sql|
  {
    TrimSpace(sql[7..fromIdx])
  }

  lemma ListPartTrimmed(sql: string, fromIdx: nat)
    requires 7 <= fromIdx <= |sql|
    ensures Trimmed(ListPart(sql, fromIdx))
  {
    var a, b := TrimSpaceTrims(sql[7..fromIdx]);
  }

  /** What parsing a SELECT gives.  The select list is cut from the seventh character on, which
    * is out of range when the text goes on with " FROM " right after SELECT. */
  function Parsed(sql: string): Result<ParsedQuery, ParseError> {
    var fromIdx := Index(Upper(sql), " FROM ");
    if fromIdx < 0 then Failure(MissingFrom)
    else if fromIdx < 7 then Failure(SliceOutOfRange)
    else
      var colList, afterFrom := ListPart(sql, fromIdx), sql[fromIdx + 6..];
      Success(ParsedQuery(TableOf(afterFrom), if colList == "*" then [] else ItemsOf(Split(colList)), colList == "*",
                          WhereOf(afterFrom), sql))
  }

  method ParseWhere(afterFrom: string) returns (whereClause: string)
    ensures whereClause == WhereOf(afterFrom)
  {
    var upperAfterFrom := Upper(afterFrom);
    var whereIdx := Index(upperAfterFrom, " WHERE ");
    if whereIdx == -1 {
      return "";
    }
    var rest := afterFrom[whereIdx + 7..];
    assert upperAfterFrom[whereIdx + 7..] == Upper(rest);
    var whereEnd := FindEarliest(upperAfterFrom[whereIdx + 7..], AFTER_WHERE);
    return TrimSpace(rest[..whereEnd]);
  }

  method ParseSelect(sql: string) returns (r: Result<ParsedQuery, ParseError>)
    ensures r == Parsed(sql)
  {
    var upperSQL := Upper(sql);
    var fromIdx := Index(upperSQL, " FROM ");
    if fromIdx == -1 {
      return Failure(MissingFrom);
    }
    if fromIdx < 7 {
      return Failure(SliceOutOfRange);
    }
    var colList := TrimSpace(sql[7..fromIdx]);
    var columns := [];
    if colList != "*" {
      columns := ParseColumnList(colList);
    }
    var afterFrom := sql[fromIdx + 6..];
    var upperAfterFrom := Upper(afterFrom);
    var tableEndIdx := FindEarliest(upperAfterFrom, AFTER_TABLE);
    var tableName := TrimSpace(afterFrom[..tableEndIdx]);
    var whereClause := ParseWhere(afterFrom);
    return Success(ParsedQuery(tableName, columns, colList == "*", whereClause, sql));
  }

  /** Statements of the other kinds go their own way and are not modelled. */
  function ParsedSQL(sql: string): Result<ParsedQuery, ParseError> {
    var text := TrimSpace(sql);
    if "SELECT" <= Upper(text) then Parsed(text) else Failure(NotASelect)
  }

  method Parse(sql: string) returns (r: Result<ParsedQuery, ParseError>)
    ensures r == ParsedSQL(sql)
  {
    var text := TrimSpace(sql);
    if "SELECT" <= Upper(text) {
      r := ParseSelect(text);
    } else {
      r := Failure(NotASelect);
    }
  }

  /** Everything from the first trailing clause on. */
  function Trailing(sql: string): string {
    sql[Earliest(Upper(sql), TRAILING)..]
  }

  method ExtractTrailingClauses(sql: string) returns (tail: string)
    ensures tail == Trailing(sql)
    ensures |tail| <= |sql| && forall i :: 0 <= i < |sql| - |tail| ==> !Occurs(Upper(sql), TRAILING, i)
    ensures tail != "" ==> Occurs(Upper(sql), TRAILING, |sql| - |tail|)
  {
    EarliestIsFirst(Upper(sql), TRAILING);
    var upperSQL := Upper(sql);
    var earliestIdx := -1;
    for i := 0 to |TRAILING|
      invariant -1 <= earliestIdx < |sql|
      invariant Earliest(upperSQL, TRAILING[..i]) == if earliestIdx == -1 then |sql| else earliestIdx
    {
      assert TRAILING[..i + 1][..i] == TRAILING[..i];
      var idx := Index(upperSQL, TRAILING[i]);
      if idx != -1 && (earliestIdx == -1 || idx < earliestIdx) {
        earliestIdx := idx;
      }
    }
    assert TRAILING[..|TRAILING|] == TRAILING;
    if earliestIdx == -1 {
      return "";
    }
    return sql[earliestIdx..];
  }
}
