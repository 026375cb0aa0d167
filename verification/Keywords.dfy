/** Which printed texts hold no clause keyword: a keyword is a word between two spaces, so it is
  * enough to look at the words a text is printed from. */
module Keywords {
  import opened Wrappers
  import opened Schema
  import opened Text
  import opened Parser
  import opened Clauses
  import opened Scanner
  import opened Query

  /** A space, capital letters, a space. */
  predicate IsKeyword(k: string) {
    |k| >= 3 && k[0] == ' ' && k[|k| - 1] == ' ' && forall i :: 1 <= i < |k| - 1 ==> 'A' <= k[i] <= 'Z'
  }

  ghost predicate Lacks(text: string, k: string) {
    forall j :: 0 <= j ==> !OccursAt(Upper(" " + text + " "), k, j)
  }

  predicate NoSpace(s: string) {
    forall i :: 0 <= i < |s| ==> s[i] != ' '
  }

  predicate Mark(c: char) {
    c != ' ' && !('A' <= c <= 'Z') && !('a' <= c <= 'z')
  }

  lemma OccursChars(text: string, k: string, j: nat)
    requires OccursAt(Upper(text), k, j)
    ensures j + |k| <= |text| && forall i :: 0 <= i < |k| ==> k[i] == UpperChar(text[j + i])
  {
    assert forall i :: 0 <= i < |k| ==> k[i] == Upper(text)[j..j + |k|][i];
  }

  /** Where a keyword occurs in a padded text, it occurs in any padded text that agrees there. */
  lemma OccursElsewhere(text: string, k: string, j: nat, other: string, at: nat)
    requires OccursAt(Upper(text), k, j) && at + |k| <= |other|
    requires j + |k| <= |text| && other[at..at + |k|] == text[j..j + |k|]
    ensures OccursAt(Upper(other), k, at)
  {
    UpperSlice(text, j, j + |k|);
    UpperSlice(other, at, at + |k|);
  }

  /** Around a space a keyword lies on one side or the other. */
  lemma SpacedOccurs(before: string, after: string, k: string, j: nat)
    requires IsKeyword(k) && OccursAt(Upper(before + " " + after), k, j)
    ensures OccursAt(Upper(before + " "), k, j) || (j >= |before| && OccursAt(Upper(" " + after), k, j - |before|))
  {
    var text := before + " " + after;
    KeywordSpace(text, k, j, |before|);
    if j < |before| {
      assert text[..|before| + 1] == before + " ";
      OccursElsewhere(text, k, j, before + " ", j);
    } else {
      assert text == before + (" " + after);
      OccursElsewhere(text, k, j, " " + after, j - |before|);
    }
  }

  lemma KeywordSpace(text: string, k: string, j: nat, at: nat)
    requires IsKeyword(k) && OccursAt(Upper(text), k, j) && at < |text| && text[at] == ' '
    ensures at <= j || j + |k| - 1 <= at
  {
    if j < at < j + |k| - 1 {
      assert false;
    }
  }

  /** Two texts with a space between them. */
  lemma LacksSpaced(a: string, b: string, k: string)
    requires IsKeyword(k) && Lacks(a, k) && Lacks(b, k)
    ensures Lacks(a + " " + b, k)
  {
    assert " " + (a + " " + b) + " " == (" " + a) + " " + (b + " ");
    assert " " + (b + " ") == " " + b + " ";
    forall j | 0 <= j ensures !OccursAt(Upper((" " + a) + " " + (b + " ")), k, j) {
      if OccursAt(Upper((" " + a) + " " + (b + " ")), k, j) {
        SpacedOccurs(" " + a, b + " ", k, j);
        assert false;
      }
    }
  }

  lemma LacksMarked(c: char, a: string, k: string)
    requires IsKeyword(k) && Lacks(a, k) && Mark(c)
    ensures Lacks([c] + a, k)
  {
    var text := " " + ([c] + a) + " ";
    forall j | 0 <= j ensures !OccursAt(Upper(text), k, j) {
      if OccursAt(Upper(text), k, j) {
        OccursChars(text, k, j);
        assert text[1] == c;
        if j <= 1 {
          assert false;
        } else {
          OccursElsewhere(text, k, j, " " + a + " ", j - 1);
          assert false;
        }
      }
    }
  }

  lemma LacksEndMark(a: string, c: char, k: string)
    requires IsKeyword(k) && Lacks(a, k) && Mark(c)
    ensures Lacks(a + [c], k)
  {
    var text := " " + (a + [c]) + " ";
    forall j | 0 <= j ensures !OccursAt(Upper(text), k, j) {
      if OccursAt(Upper(text), k, j) {
        OccursChars(text, k, j);
        assert text[|a| + 1] == c;
        if j + |k| > |a| + 1 {
          assert false;
        } else {
          OccursElsewhere(text, k, j, " " + a + " ", j);
          assert false;
        }
      }
    }
  }

  /** A single word is a keyword or holds none. */
  lemma LacksWord(word: string, k: string)
    requires IsKeyword(k) && NoSpace(word) && " " + Upper(word) + " " != k
    ensures Lacks(word, k)
  {
    var text := " " + word + " ";
    forall j | 0 <= j ensures !OccursAt(Upper(text), k, j) {
      if OccursAt(Upper(text), k, j) {
        OccursChars(text, k, j);
        assert text[j] == ' ' && text[j + |k| - 1] == ' ';
        assert j == 0 && j + |k| == |text|;
        assert forall i :: 0 <= i < |k| ==> k[i] == (" " + Upper(word) + " ")[i];
        assert false;
      }
    }
  }

  lemma LacksMixed(word: string, at: nat, k: string)
    requires IsKeyword(k) && NoSpace(word) && at < |word| && Mark(word[at])
    ensures Lacks(word, k)
  {
    assert (" " + Upper(word) + " ")[at + 1] == word[at];
    LacksWord(word, k);
  }

  // ---------------------------------------------------------------------------------------

  predicate Name(q: QualifiedColumn) {
    IsIdent(q.group) && IsIdent(q.column)
  }

  lemma LacksDotted(q: QualifiedColumn, k: string)
    requires IsKeyword(k) && Name(q)
    ensures Lacks(DottedName(q), k)
  {
    LacksMixed(DottedName(q), |q.group|, k);
  }

  ghost predicate AllLits<C>(e: Expr<C>, p: string -> bool) {
    match e
    case Col(_) => true
    case Lit(text, _) => p(text)
    case Not(a) => AllLits(a, p)
    case IsNull(a) => AllLits(a, p)
    case Bin(_, l, r) => AllLits(l, p) && AllLits(r, p)
  }

  lemma LacksNot(a: string, k: string)
    requires IsKeyword(k) && |k| >= 6 && Lacks(a, k)
    ensures Lacks("(NOT " + a + ")", k)
  {
    assert "(NOT" + " " == "(NOT ";
    LacksMixed("(NOT", 0, k);
    LacksSpaced("(NOT", a, k);
    LacksEndMark("(NOT " + a, ')', k);
  }

  lemma LacksIsNull(a: string, k: string)
    requires IsKeyword(k) && |k| >= 6 && Lacks(a, k)
    ensures Lacks("(" + a + " IS NULL)", k)
  {
    LacksMarked('(', a, k);
    LacksWord("IS", k);
    LacksMixed("NULL)", 4, k);
    LacksSpaced("(" + a, "IS", k);
    LacksSpaced("(" + a + " " + "IS", "NULL)", k);
    assert " " + "IS" + " " + "NULL)" == " IS NULL)";
    assert "(" + a + " IS NULL)" == "(" + a + " " + "IS" + " " + "NULL)";
  }

  lemma LacksBin(l: string, op: string, r: string, k: string)
    requires IsKeyword(k) && Lacks(l, k) && Lacks(op, k) && Lacks(r, k)
    ensures Lacks("(" + l + (" " + op + " ") + r + ")", k)
  {
    LacksMarked('(', l, k);
    LacksSpaced("(" + l, op, k);
    LacksSpaced("(" + l + " " + op, r, k);
    LacksEndMark("(" + l + " " + op + " " + r, ')', k);
    assert "(" + l + (" " + op + " ") + r + ")" == "(" + l + " " + op + " " + r + ")";
  }

  /** A printed expression holds a keyword only if one of its literals does. */
  lemma {:induction false} ShowLacks(e: Expr<QualifiedColumn>, k: string)
    requires IsKeyword(k) && |k| >= 6
    requires AllCols(e, Name) && AllLits(e, (text: string) => Lacks(text, k))
    ensures Lacks(Show(e, DottedName), k)
  {
    match e
    case Col(q) => LacksDotted(q, k);
    case Lit(_, _) =>
    case Not(a) =>
      ShowLacks(a, k);
      LacksNot(Show(a, DottedName), k);
    case IsNull(a) =>
      ShowLacks(a, k);
      LacksIsNull(Show(a, DottedName), k);
    case Bin(op, l, r) =>
      ShowLacks(l, k);
      ShowLacks(r, k);
      LacksBin(Show(l, DottedName), OpText(op), Show(r, DottedName), k);
  }

  // ---------------------------------------------------------------------------------------

  lemma LacksListed(a: string, b: string, k: string)
    requires IsKeyword(k) && Lacks(a, k) && Lacks(b, k)
    ensures Lacks(a + ", " + b, k)
  {
    LacksEndMark(a, ',', k);
    LacksSpaced(a + ",", b, k);
    assert a + ", " + b == a + "," + " " + b;
  }

  lemma {:induction false} JoinLacks(parts: seq<string>, k: string)
    requires IsKeyword(k) && parts != [] && forall i :: 0 <= i < |parts| ==> Lacks(parts[i], k)
    ensures Lacks(Join(parts, ", "), k)
  {
    if |parts| > 1 {
      JoinLacks(parts[..|parts| - 1], k);
      LacksListed(Join(parts[..|parts| - 1], ", "), parts[|parts| - 1], k);
    }
  }

  predicate PlainItem(item: Item) {
    match item
    case Qualified(q) => Name(q)
    case GroupStar(g) => IsIdent(g)
    case Bare(name) => IsIdent(name) && Free(name)
  }

  lemma ItemIsFree(item: Item)
    requires PlainItem(item)
    ensures Free(ItemText(item))
  {
    forall i | 0 <= i < |KEYWORDS| ensures Lacks(ItemText(item), KEYWORDS[i]) {
      match item
      case Qualified(q) => LacksDotted(q, KEYWORDS[i]);
      case GroupStar(g) => LacksMixed(g + ".*", |g|, KEYWORDS[i]);
      case Bare(name) =>
    }
  }

  /** A printed select list holds a keyword only if it is one of its unqualified names. */
  lemma ListIsFree(items: seq<Item>)
    requires items != [] && forall i :: 0 <= i < |items| ==> PlainItem(items[i])
    ensures Free(ListText(Items(items)))
  {
    var texts := ItemTexts(items);
    forall i | 0 <= i < |KEYWORDS| ensures Lacks(Join(texts, ", "), KEYWORDS[i]) {
      forall j | 0 <= j < |texts| ensures Lacks(texts[j], KEYWORDS[i]) {
        ItemIsFree(items[j]);
      }
      JoinLacks(texts, KEYWORDS[i]);
    }
  }

  /** No keyword that ends a WHERE, not even with a space put before and after. */
  predicate NoClause(text: string) {
    forall i :: 0 <= i < |AFTER_WHERE| ==> Index(Upper(" " + text + " "), AFTER_WHERE[i]) < 0
  }

  lemma {:induction false} LitsLack(e: Expr<QualifiedColumn>, i: nat)
    requires i < |AFTER_WHERE| && AllLits(e, NoClause)
    ensures AllLits(e, (text: string) => Lacks(text, AFTER_WHERE[i]))
  {
    match e
    case Col(_) =>
    case Lit(text, _) =>
    case Not(a) => LitsLack(a, i);
    case IsNull(a) => LitsLack(a, i);
    case Bin(_, l, r) => LitsLack(l, i); LitsLack(r, i);
  }

  lemma ExprHasNoClause(e: Expr<QualifiedColumn>)
    requires AllCols(e, Name) && AllLits(e, NoClause)
    ensures NoClause(Show(e, DottedName))
  {
    forall i | 0 <= i < |AFTER_WHERE| ensures Lacks(Show(e, DottedName), AFTER_WHERE[i]) {
      LitsLack(e, i);
      ShowLacks(e, AFTER_WHERE[i]);
    }
  }

  lemma PrefixOccurs(text: string, k: string, j: int, longer: string, k': string)
    requires OccursAt(text, k, j) && text <= longer && k' <= k
    ensures OccursAt(longer, k', j)
  {
    assert longer[j..j + |k'|] == text[j..j + |k|][..|k'|];
  }

  /** Nor does a longer keyword occur, nor with less put around the text. */
  lemma NoneInside(text: string, k: string, i: nat)
    requires i < |AFTER_WHERE| && AFTER_WHERE[i] <= k && Lacks(text, AFTER_WHERE[i])
    ensures Index(Upper(" " + text) + " ", k) < 0 && Index(Upper(text) + " ", k) < 0
  {
    var padded, u := Upper(" " + text + " "), Upper(text) + " ";
    UpperConcat(" " + text, " ");
    UpperConcat(" ", text);
    assert Upper(" " + text) + " " == " " + u == padded;
    if j :| OccursAt(" " + u, k, j) {
      PrefixOccurs(" " + u, k, j, padded, AFTER_WHERE[i]);
      assert false;
    }
    if j :| OccursAt(u, k, j) {
      OccursShift(" ", u, k, j);
      assert false;
    }
  }

  lemma NoClauseIsCarried(text: string, tail: string)
    requires NoClause(text) && (tail == "" || StartsTrailing(tail))
    ensures Carried(text, tail)
  {
    TailStartsClause(tail);
    forall i | 0 <= i < |AFTER_WHERE| ensures NoneBefore(Upper(text), Upper(tail), AFTER_WHERE[i]) {
      NoneInside(text, AFTER_WHERE[i], i);
      SegmentFree(Upper(text), Upper(tail), AFTER_WHERE[i]);
    }
    forall i | 0 <= i < |TRAILING| ensures NoneBefore(Upper(" " + text), Upper(tail), TRAILING[i]) {
      TrailingStarts(TRAILING[i], i);
      NoneInside(text, TRAILING[i], i);
      TrailingShape(i);
      SegmentFree(Upper(" " + text), Upper(tail), TRAILING[i]);
    }
  }

  /** A printed WHERE is carried if its literals hold no keyword of a later clause. */
  lemma ExprIsCarried(e: Expr<QualifiedColumn>, tail: string)
    requires AllCols(e, Name) && AllLits(e, NoClause) && (tail == "" || StartsTrailing(tail))
    ensures Carried(Show(e, DottedName), tail)
  {
    ExprHasNoClause(e);
    NoClauseIsCarried(Show(e, DottedName), tail);
  }

  // ---------------------------------------------------------------------------------------

  const WHERE := " WHERE "

  lemma {:induction false} DigitsAreDigits(n: nat)
    ensures Digits(n) != "" && forall i :: 0 <= i < |Digits(n)| ==> '0' <= Digits(n)[i] <= '9'
  {
    if n >= 10 {
      DigitsAreDigits(n / 10);
    }
  }

  lemma KeyLacks(key: OrderKey<QualifiedColumn>)
    requires Name(key.column)
    ensures Lacks(KeyText(key, DottedName), WHERE)
  {
    var name := DottedName(key.column);
    LacksDotted(key.column, WHERE);
    if key.descending {
      LacksWord("DESC", WHERE);
      LacksSpaced(name, "DESC", WHERE);
      assert name + " DESC" == name + " " + "DESC";
    } else {
      assert name + "" == name;
    }
  }

  lemma {:induction false} KeysLack(order: seq<OrderKey<QualifiedColumn>>)
    requires order != [] && forall i :: 0 <= i < |order| ==> Name(order[i].column)
    ensures Lacks(KeysText(order, DottedName), WHERE)
  {
    KeyLacks(order[|order| - 1]);
    if |order| > 1 {
      KeysLack(order[..|order| - 1]);
      LacksListed(KeysText(order[..|order| - 1], DottedName), KeyText(order[|order| - 1], DottedName), WHERE);
    }
  }

  lemma OrderLacks(keys: string)
    requires Lacks(keys, WHERE)
    ensures Lacks(" ORDER BY " + keys, WHERE)
  {
    LacksWord("", WHERE);
    assert (" " + Upper("ORDER") + " ")[1] == 'O' && WHERE[1] == 'W';
    LacksWord("ORDER", WHERE);
    LacksWord("BY", WHERE);
    LacksSpaced("", "ORDER", WHERE);
    LacksSpaced("" + " " + "ORDER", "BY", WHERE);
    LacksSpaced("" + " " + "ORDER" + " " + "BY", keys, WHERE);
    assert " ORDER BY " == "" + " " + "ORDER" + " " + "BY" + " ";
  }

  lemma LimitLacks(front: string, n: nat)
    requires Lacks(front, WHERE)
    ensures Lacks(front + (" LIMIT " + Digits(n)), WHERE)
  {
    DigitsAreDigits(n);
    assert (" " + Upper("LIMIT") + " ")[1] == 'L' && WHERE[1] == 'W';
    LacksWord("LIMIT", WHERE);
    LacksMixed(Digits(n), 0, WHERE);
    LacksSpaced(front, "LIMIT", WHERE);
    LacksSpaced(front + " " + "LIMIT", Digits(n), WHERE);
    assert front + (" LIMIT " + Digits(n)) == front + " " + "LIMIT" + " " + Digits(n);
  }

  /** A printed tail holds no WHERE. */
  lemma TailHasNoWhere(order: seq<OrderKey<QualifiedColumn>>, limit: Option<nat>)
    requires forall i :: 0 <= i < |order| ==> Name(order[i].column)
    ensures Index(Upper(TailText(order, limit, DottedName)), WHERE) < 0
  {
    var tail := TailText(order, limit, DottedName);
    var front := if order == [] then "" else " ORDER BY " + KeysText(order, DottedName);
    if order == [] {
      LacksWord("", WHERE);
    } else {
      KeysLack(order);
      OrderLacks(KeysText(order, DottedName));
    }
    if limit.Some? {
      LimitLacks(front, limit.value);
    } else {
      assert front + "" == front;
    }
    LacksItself(tail);
  }

  lemma LacksItself(text: string)
    requires Lacks(text, WHERE)
    ensures Index(Upper(text), WHERE) < 0
  {
    var j := Index(Upper(text), WHERE);
    if j >= 0 {
      OccursElsewhere(text, WHERE, j, " " + text + " ", j + 1);
      assert false;
    }
  }
}
