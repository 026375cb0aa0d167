/** A printed SELECT and what the front end makes of its pieces. */
module Printing {
  import opened Wrappers
  import opened Schema
  import opened Text
  import opened Scanner
  import opened Parser
  import opened Clauses
  import opened Query
  import opened Keywords

  /** The text is rewritten to `flat`, and the groups it refers to are these. */
  predicate Rewrites(text: string, flat: string, groups: seq<string>) {
    TranslateRefs(text) == flat && RefGroups(text) == groups
  }

  predicate NoRef(text: string) {
    forall k :: 0 <= k < |text| ==> !MatchesAt(text, k)
  }

  lemma {:induction false} NoRefFrom(text: string, k: nat)
    requires NoRef(text) && k <= |text|
    ensures TranslateFrom(text, k) == text[k..] && RefGroupsFrom(text, k) == []
    decreases |text| - k
  {
    if k < |text| {
      NoRefFrom(text, k + 1);
    }
  }

  lemma NoRefRewrites(text: string)
    requires NoRef(text)
    ensures Rewrites(text, text, [])
  {
    NoRefFrom(text, 0);
  }

  predicate NoDot(text: string) {
    forall k :: 0 <= k < |text| ==> text[k] != '.'
  }

  lemma NoDotRewrites(text: string)
    requires NoDot(text)
    ensures Rewrites(text, text, [])
  {
    NoRefRewrites(text);
  }

  lemma WholeMatch(text: string)
    requires MatchesAt(text, 0) && MatchEnd(text, 0) == |text|
    ensures Rewrites(text, Flattened(text, 0, RunEnd(text, 0), |text|), [text[..RunEnd(text, 0)]])
  {
    assert TranslateFrom(text, |text|) == "" && RefGroupsFrom(text, |text|) == [];
    assert TranslateFrom(text, 0) == Chunk(text, 0) + "";
    assert RefGroupsFrom(text, 0) == FoundAt(text, 0) + [];
  }

  /** Text is left alone exactly when it holds no reference; a string literal is no exception. */
  lemma KeptIffNoRef(text: string)
    ensures TranslateRefs(text) == text <==> NoRef(text)
  {
    if NoRef(text) {
      NoRefRewrites(text);
    } else {
      var k :| 0 <= k < |text| && MatchesAt(text, k);
      DotReplaced(text, k);
      TranslateRefsSpec(text);
    }
  }

  lemma DotReplaced(text: string, k: nat)
    requires k < |text| && MatchesAt(text, k)
    ensures exists i :: 0 <= i < |text| && Replaced(text, i)
  {
    var d := RunEnd(text, k);
    RunIsWords(text, k);
    WordStartReaches(text, k, d);
    assert IsStart(text[k]);
    assert HasStart(text, WordStart(text, d), d);
    assert Replaced(text, d) || Replaced(text, WordStart(text, d) - 1);
  }

  lemma DottedPieces(q: QualifiedColumn)
    ensures var text := DottedName(q);
            && text[..|q.group|] == q.group && text[|q.group|] == '.' && text[|q.group| + 1..] == q.column
            && (forall i :: 0 <= i < |q.group| ==> text[i] == q.group[i])
            && (forall i :: |q.group| + 1 <= i < |text| ==> text[i] == q.column[i - |q.group| - 1])
  {
  }

  lemma DottedRewrites(q: QualifiedColumn)
    requires Name(q)
    ensures Rewrites(DottedName(q), q.FlatName(), [q.group])
  {
    var text := DottedName(q);
    DottedPieces(q);
    RunReaches(text, 0, |q.group|);
    RunReaches(text, |q.group| + 1, |text|);
    WholeMatch(text);
  }

  lemma RewritesConcat(a: string, b: string, fa: string, fb: string, ga: seq<string>, gb: seq<string>)
    requires Rewrites(a, fa, ga) && Rewrites(b, fb, gb) && Seam(a, b)
    ensures Rewrites(a + b, fa + fb, ga + gb)
  {
    TranslateRefsConcat(a, b);
  }

  /** Text put in brackets of some kind. */
  lemma RewritesWithin(open: string, a: string, close: string, fa: string, ga: seq<string>)
    requires Rewrites(a, fa, ga) && NoDot(open) && NoDot(close) && open != "" && close != ""
    requires !IsWord(open[|open| - 1]) && !IsWord(close[0]) && close[0] != '*'
    ensures Rewrites(open + a + close, open + fa + close, ga)
  {
    NoDotRewrites(open);
    NoDotRewrites(close);
    RewritesConcat(open, a, open, fa, [], ga);
    RewritesConcat(open + a, close, open + fa, close, [] + ga, []);
    assert [] + ga + [] == ga;
  }

  /** Two texts with something between them. */
  lemma RewritesBetween(a: string, sep: string, b: string, fa: string, fb: string, ga: seq<string>, gb: seq<string>)
    requires Rewrites(a, fa, ga) && Rewrites(b, fb, gb) && NoDot(sep) && sep != ""
    requires !IsWord(sep[0]) && sep[0] != '*' && !IsWord(sep[|sep| - 1])
    ensures Rewrites(a + sep + b, fa + sep + fb, ga + gb)
  {
    NoDotRewrites(sep);
    RewritesConcat(a, sep, fa, sep, ga, []);
    RewritesConcat(a + sep, b, fa + sep, fb, ga + [], gb);
    assert ga + [] + gb == ga + gb;
  }

  /** A literal that trimming leaves alone. */
  predicate Inert(text: string) {
    text != "" && Trimmed(text)
  }

  /** The groups an expression refers to, in order. */
  function GroupsIn(e: Expr<QualifiedColumn>): seq<string> {
    match e
    case Col(q) => [q.group]
    case Lit(_, _) => []
    case Not(a) => GroupsIn(a)
    case IsNull(a) => GroupsIn(a)
    case Bin(_, l, r) => GroupsIn(l) + GroupsIn(r)
  }

  lemma Brackets(l: string, sep: string, r: string)
    ensures "(" + l + sep + r + ")" == "(" + (l + sep + r) + ")"
  {
  }

  lemma BinRewrites(l: string, op: Op, r: string, fl: string, fr: string, gl: seq<string>, gr: seq<string>)
    requires Rewrites(l, fl, gl) && Rewrites(r, fr, gr)
    ensures Rewrites("(" + l + (" " + OpText(op) + " ") + r + ")", "(" + fl + (" " + OpText(op) + " ") + fr + ")", gl + gr)
  {
    var sep := " " + OpText(op) + " ";
    assert NoDot(sep);
    RewritesBetween(l, sep, r, fl, fr, gl, gr);
    RewritesWithin("(", l + sep + r, ")", fl + sep + fr, gl + gr);
    Brackets(l, sep, r);
    Brackets(fl, sep, fr);
  }

  /** What the rewriting makes of a printed expression: references become flat names, and so do
    * those within literals. */
  function AsRewritten(e: Expr<QualifiedColumn>): Expr<string> {
    match e
    case Col(q) => Col(q.FlatName())
    case Lit(text, value) => Lit(TranslateRefs(text), value)
    case Not(a) => Not(AsRewritten(a))
    case IsNull(a) => IsNull(AsRewritten(a))
    case Bin(op, l, r) => Bin(op, AsRewritten(l), AsRewritten(r))
  }

  /** The groups found in the text of a printed expression, within its literals too. */
  function GroupsFound(e: Expr<QualifiedColumn>): seq<string> {
    match e
    case Col(q) => [q.group]
    case Lit(text, _) => RefGroups(text)
    case Not(a) => GroupsFound(a)
    case IsNull(a) => GroupsFound(a)
    case Bin(_, l, r) => GroupsFound(l) + GroupsFound(r)
  }

  lemma {:induction false} ShowRewritten(e: Expr<QualifiedColumn>)
    requires AllCols(e, Name)
    ensures Rewrites(Show(e, DottedName), Show(AsRewritten(e), Same), GroupsFound(e))
  {
    match e
    case Col(q) => DottedRewrites(q);
    case Lit(_, _) =>
    case Not(a) =>
      ShowRewritten(a);
      RewritesWithin("(NOT ", Show(a, DottedName), ")", Show(AsRewritten(a), Same), GroupsFound(a));
    case IsNull(a) =>
      ShowRewritten(a);
      RewritesWithin("(", Show(a, DottedName), " IS NULL)", Show(AsRewritten(a), Same), GroupsFound(a));
    case Bin(op, l, r) =>
      ShowRewritten(l);
      ShowRewritten(r);
      BinRewrites(Show(l, DottedName), op, Show(r, DottedName), Show(AsRewritten(l), Same),
                  Show(AsRewritten(r), Same), GroupsFound(l), GroupsFound(r));
  }

  lemma {:induction false} KeptLiterals(e: Expr<QualifiedColumn>)
    requires AllLits(e, NoRef)
    ensures AsRewritten(e) == MapCols(e, FlatName) && GroupsFound(e) == GroupsIn(e)
  {
    match e
    case Col(_) =>
    case Lit(text, _) => NoRefRewrites(text);
    case Not(a) => KeptLiterals(a);
    case IsNull(a) => KeptLiterals(a);
    case Bin(_, l, r) => KeptLiterals(l); KeptLiterals(r);
  }

  /** Without references in literals, it is the same expression over flat names, and the groups
    * found are those it refers to. */
  lemma ShowRewrites(e: Expr<QualifiedColumn>)
    requires AllCols(e, Name) && AllLits(e, NoRef)
    ensures Rewrites(Show(e, DottedName), Show(MapCols(e, FlatName), Same), GroupsIn(e))
  {
    ShowRewritten(e);
    KeptLiterals(e);
  }

  lemma BracketsIff(a: string, a': string, open: string, close: string)
    requires |a| == |a'|
    ensures open + a + close == open + a' + close <==> a == a'
  {
    if open + a + close == open + a' + close {
      assert a == (open + a + close)[|open|..|open| + |a|];
      assert a' == (open + a' + close)[|open|..|open| + |a'|];
    }
  }

  lemma BinIff(l: string, l': string, sep: string, r: string, r': string)
    requires |l| == |l'| && |r| == |r'|
    ensures "(" + l + sep + r + ")" == "(" + l' + sep + r' + ")" <==> l == l' && r == r'
  {
    Brackets(l, sep, r);
    Brackets(l', sep, r');
    BracketsIff(l + sep + r, l' + sep + r', "(", ")");
    if l + sep + r == l' + sep + r' {
      assert l == (l + sep + r)[..|l|] && l' == (l' + sep + r')[..|l|];
      assert r == (l + sep + r)[|l| + |sep|..] && r' == (l' + sep + r')[|l| + |sep|..];
    }
  }

  /** The rewriting keeps an expression, but for its flat names, exactly when no literal in it holds
    * a reference. */
  lemma {:induction false} RewrittenIff(e: Expr<QualifiedColumn>)
    ensures |Show(AsRewritten(e), Same)| == |Show(MapCols(e, FlatName), Same)|
    ensures Show(AsRewritten(e), Same) == Show(MapCols(e, FlatName), Same) <==> AllLits(e, NoRef)
  {
    match e
    case Col(_) =>
    case Lit(text, _) =>
      KeptIffNoRef(text);
      TranslateRefsSpec(text);
    case Not(a) =>
      RewrittenIff(a);
      BracketsIff(Show(AsRewritten(a), Same), Show(MapCols(a, FlatName), Same), "(NOT ", ")");
    case IsNull(a) =>
      RewrittenIff(a);
      BracketsIff(Show(AsRewritten(a), Same), Show(MapCols(a, FlatName), Same), "(", " IS NULL)");
    case Bin(op, l, r) =>
      RewrittenIff(l);
      RewrittenIff(r);
      BinIff(Show(AsRewritten(l), Same), Show(MapCols(l, FlatName), Same), " " + OpText(op) + " ",
             Show(AsRewritten(r), Same), Show(MapCols(r, FlatName), Same));
  }

  /** Stated of the printed text. */
  lemma ShowRewritesIff(e: Expr<QualifiedColumn>)
    requires AllCols(e, Name)
    ensures TranslateRefs(Show(e, DottedName)) == Show(MapCols(e, FlatName), Same) <==> AllLits(e, NoRef)
  {
    ShowRewritten(e);
    RewrittenIff(e);
  }

  // ---------------------------------------------------------------------------------------

  ghost predicate PlainOrder(order: seq<OrderKey<QualifiedColumn>>) {
    forall i :: 0 <= i < |order| ==> Name(order[i].column)
  }

  lemma Append(a: string, b: string, fa: string, ga: seq<string>)
    requires Rewrites(a, fa, ga) && NoDot(b) && (b != "" ==> !IsWord(b[0]) && b[0] != '*')
    ensures Rewrites(a + b, fa + b, ga)
  {
    NoDotRewrites(b);
    RewritesConcat(a, b, fa, b, ga, []);
    assert ga + [] == ga;
  }

  lemma KeyRewrites(key: OrderKey<QualifiedColumn>)
    requires Name(key.column)
    ensures TranslateRefs(KeyText(key, DottedName)) == KeyText(OrderKey(FlatName(key.column), key.descending), Same)
  {
    DottedRewrites(key.column);
    Append(DottedName(key.column), if key.descending then " DESC" else "", FlatName(key.column), [key.column.group]);
  }

  lemma MapKeysSnoc(order: seq<OrderKey<QualifiedColumn>>)
    requires order != []
    ensures var mapped := MapKeys(order, FlatName);
            && mapped[..|order| - 1] == MapKeys(order[..|order| - 1], FlatName)
            && mapped[|order| - 1] == OrderKey(FlatName(order[|order| - 1].column), order[|order| - 1].descending)
  {
  }

  lemma ListedRewrites(a: string, b: string)
    ensures TranslateRefs(a + ", " + b) == TranslateRefs(a) + ", " + TranslateRefs(b)
  {
    RewritesBetween(a, ", ", b, TranslateRefs(a), TranslateRefs(b), RefGroups(a), RefGroups(b));
  }

  lemma {:induction false} KeysRewrite(order: seq<OrderKey<QualifiedColumn>>)
    requires order != [] && PlainOrder(order)
    ensures TranslateRefs(KeysText(order, DottedName)) == KeysText(MapKeys(order, FlatName), Same)
  {
    var front, last := order[..|order| - 1], order[|order| - 1];
    KeyRewrites(last);
    MapKeysSnoc(order);
    if |order| > 1 {
      KeysRewrite(front);
      ListedRewrites(KeysText(front, DottedName), KeyText(last, DottedName));
    }
  }

  lemma LimitIsPlain(limit: Option<nat>)
    ensures NoDot(LimitText(limit)) && (limit.Some? ==> LimitText(limit)[0] == ' ')
  {
    if limit.Some? {
      DigitsAreDigits(limit.value);
    }
  }

  lemma TailRewrites(order: seq<OrderKey<QualifiedColumn>>, limit: Option<nat>)
    requires PlainOrder(order)
    ensures TranslateRefs(TailText(order, limit, DottedName)) == TailText(MapKeys(order, FlatName), limit, Same)
  {
    LimitIsPlain(limit);
    if order == [] {
      NoDotRewrites("");
      Append("", LimitText(limit), "", []);
    } else {
      KeysRewrite(order);
      var keys := KeysText(order, DottedName);
      NoDotRewrites(" ORDER BY ");
      RewritesConcat(" ORDER BY ", keys, " ORDER BY ", TranslateRefs(keys), [], RefGroups(keys));
      Append(" ORDER BY " + keys, LimitText(limit), " ORDER BY " + TranslateRefs(keys), [] + RefGroups(keys));
    }
  }

  lemma TailStarts(order: seq<OrderKey<QualifiedColumn>>, limit: Option<nat>)
    ensures var tail := TailText(order, limit, DottedName); tail == "" || StartsTrailing(tail)
  {
    if order != [] {
      var keys := KeysText(order, DottedName);
      StartsWith(" ORDER BY ", keys + LimitText(limit), 0);
      Assoc(" ORDER BY ", keys, LimitText(limit));
    } else if limit.Some? {
      StartsWith(" LIMIT ", Digits(limit.value), 1);
      assert "" + LimitText(limit) == LimitText(limit);
    }
  }

  lemma StartsWith(clause: string, rest: string, i: nat)
    requires i < |TRAILING| && TRAILING[i] == clause
    ensures StartsTrailing(clause + rest)
  {
    UpperConcat(clause, rest);
    assert Upper(clause) == clause;
    assert OccursAt(Upper(clause + rest), TRAILING[i], 0);
  }

  // ---------------------------------------------------------------------------------------

  lemma WordsAreNoSpace(s: string)
    requires IsIdent(s)
    ensures Trimmed(s) && NoSpace(s) && NoDot(s)
  {
  }

  lemma {:induction false} ShowIsTrimmed(e: Expr<QualifiedColumn>)
    requires AllCols(e, Name) && AllLits(e, Inert)
    ensures Show(e, DottedName) != "" && Trimmed(Show(e, DottedName))
  {
    match e
    case Col(q) =>
      WordsAreNoSpace(q.group);
      WordsAreNoSpace(q.column);
    case Lit(_, _) =>
    case _ =>
      var s := Show(e, DottedName);
      assert s[0] == '(' && s[|s| - 1] == ')';
  }

  // ---------------------------------------------------------------------------------------
  // Select lists

  predicate ItemChar(c: char) {
    IsWord(c) || c == '.' || c == '*'
  }

  /** Item characters only, an identifier start first, and at the end a word character or `*`. */
  predicate ItemShape(text: string) {
    && text != "" && IsStart(text[0]) && text[|text| - 1] != '.'
    && forall i :: 0 <= i < |text| ==> ItemChar(text[i])
  }

  /** The parsed form of an item. */
  function ParsedItem(item: Item): QualifiedColumn {
    match item
    case Qualified(q) => q
    case GroupStar(g) => QualifiedColumn(g, "*")
    case Bare(name) => QualifiedColumn("", name)
  }

  function ParsedItems(items: seq<Item>): seq<QualifiedColumn> {
    seq(|items|, i requires 0 <= i < |items| => ParsedItem(items[i]))
  }

  lemma Nowhere(text: string, sub: string, c: char)
    requires c in sub && forall i :: 0 <= i < |text| ==> text[i] != c
    ensures Index(text, sub) < 0
  {
    var i :| 0 <= i < |sub| && sub[i] == c;
    forall j | 0 <= j ensures !OccursAt(text, sub, j) {
      if j + |sub| <= |text| {
        assert text[j..j + |sub|][i] == text[j + i];
      }
    }
  }

  lemma ItemIsPlain(text: string)
    requires ItemShape(text)
    ensures WithoutAlias(text) == text && !Contains(text, "(")
    ensures TrimSpace(text) == text && TrimSpace(" " + text) == text
  {
    Nowhere(Upper(text), " AS ", ' ');
    Nowhere(text, "(", '(');
    TrimTrimmed(text);
  }

  lemma DotIsFirst(a: string, b: string)
    requires NoDot(a)
    ensures FirstDot(a + "." + b) == |a|
    ensures var text := a + "." + b; text[..|a|] == a && text[|a| + 1..] == b
  {
    var text := a + "." + b;
    assert OccursAt(text, ".", |a|);
    forall i | 0 <= i < |a| ensures !OccursAt(text, ".", i) {
      assert text[i] == a[i];
      assert text[i..i + 1][0] == a[i];
    }
  }

  /** Every item is parsed as what it is. */
  lemma ItemParses(item: Item, text: string)
    requires PlainItem(item) && text == ItemText(item)
    ensures TrimSpace(text) == text && ItemOf(TrimSpace(text)) == ParsedItem(item)
  {
    ItemIsPlain(text);
    match item
    case Qualified(q) => QualifiedParses(q);
    case GroupStar(g) => StarParses(g);
    case Bare(name) =>
      WordsAreNoSpace(name);
      Nowhere(name, ".", '.');
  }

  lemma StarParses(g: string)
    requires IsIdent(g)
    ensures var text := g + ".*"; FirstDot(text) >= 0 && HasSuffix(text, ".*") && text[..|text| - 2] == g
  {
    WordsAreNoSpace(g);
    DotIsFirst(g, "*");
    assert g + ".*" == g + "." + "*";
  }

  lemma QualifiedParses(q: QualifiedColumn)
    requires Name(q)
    ensures var text := DottedName(q); FirstDot(text) >= 0 && !HasSuffix(text, ".*") && QualifiedOf(text) == q
  {
    var text := DottedName(q);
    WordsAreNoSpace(q.group);
    WordsAreNoSpace(q.column);
    DotIsFirst(q.group, q.column);
    TrimTrimmed(q.group);
    TrimTrimmed(q.column);
    assert text[|text| - 1] == q.column[|q.column| - 1];
    assert text[|text| - 2..][1] == text[|text| - 1];
  }

  lemma AliasCut(text: string, blank: string, word: string, alias: string)
    requires ItemShape(text) && Blank(blank) && Upper(word) == " AS "
    ensures Index(Upper(text + blank + word + alias), " AS ") == |text| + |blank|
  {
    var upper, n := Upper(text + blank + word + alias), |text| + |blank|;
    assert OccursAt(upper, " AS ", n);
    forall j | 0 <= j < n ensures !OccursAt(upper, " AS ", j) {
      assert upper[j..j + 2] == [upper[j], upper[j + 1]];
      if j < |text| {
        assert ItemChar(text[j]);
      } else if j + 1 < n {
        assert upper[j + 1] == UpperChar(blank[j + 1 - |text|]);
      }
      assert upper[j] != ' ' || upper[j + 1] != 'A';
    }
  }

  lemma AliasGone(text: string, blank: string, word: string, alias: string)
    requires ItemShape(text) && Blank(blank) && Upper(word) == " AS "
    ensures WithoutAlias(text + blank + word + alias) == text
  {
    AliasCut(text, blank, word, alias);
    ItemIsPlain(text);
    assert (text + blank + word + alias)[..|text| + |blank|] == text + blank;
    assert "" + text + blank == text + blank;
    TrimSpaceIs("", text, blank);
  }

  /** An output alias is dropped, in whatever case its AS is written and with whatever blanks before. */
  lemma AliasDropped(item: Item, blank: string, word: string, alias: string)
    requires PlainItem(item) && Blank(blank) && Upper(word) == " AS "
    ensures ItemOf(ItemText(item) + blank + word + alias) == ParsedItem(item)
  {
    var text := ItemText(item);
    ItemIsPlain(text);
    ItemParses(item, text);
    AliasGone(text, blank, word, alias);
  }

  /** Blanks around the dot of a qualified column do not matter. */
  lemma BlanksAroundDot(q: QualifiedColumn, a: string, b: string)
    requires Name(q) && Blank(a) && Blank(b)
    ensures FirstDot(q.group + a + "." + b + q.column) >= 0 && QualifiedOf(q.group + a + "." + b + q.column) == q
  {
    var text := q.group + a + "." + b + q.column;
    WordsAreNoSpace(q.group);
    WordsAreNoSpace(q.column);
    assert NoDot(q.group + a);
    assert text == (q.group + a) + "." + (b + q.column);
    DotIsFirst(q.group + a, b + q.column);
    TrimSpaceIs("", q.group, a);
    TrimSpaceIs(b, q.column, "");
    assert "" + q.group + a == q.group + a && b + q.column + "" == b + q.column;
  }

  /** A blank part is no item. */
  lemma BlankPartSkipped(parts: seq<string>, blank: string)
    requires Blank(blank)
    ensures ItemsOf(parts + [blank]) == ItemsOf(parts)
  {
    assert (parts + [blank])[..|parts|] == parts;
    TrimLeftBlanks(blank, "");
    assert blank + "" == blank;
  }

  /** The parts of a list: every item after the first has the space after its comma. */
  function Spaced(texts: seq<string>): seq<string> {
    seq(|texts|, i requires 0 <= i < |texts| => if i == 0 then texts[0] else " " + texts[i])
  }

  lemma {:induction false} JoinSpaced(texts: seq<string>)
    ensures Join(texts, ", ") == Join(Spaced(texts), ",")
  {
    if |texts| > 1 {
      var front := texts[..|texts| - 1];
      JoinSpaced(front);
      assert Spaced(texts)[..|texts| - 1] == Spaced(front);
    }
  }

  lemma {:induction false} NoParensDepth(text: string)
    requires forall i :: 0 <= i < |text| ==> Nesting(text[i]) == 0
    ensures Depth(text) == 0
  {
    if text != "" {
      NoParensDepth(text[..|text| - 1]);
    }
  }

  lemma SpacedIsWhole(texts: seq<string>)
    requires forall i :: 0 <= i < |texts| ==> ItemShape(texts[i])
    ensures WholeParts(Spaced(texts))
  {
    forall i | 0 <= i < |texts| ensures Depth(Spaced(texts)[i]) == 0 && NoTopComma(Spaced(texts)[i]) {
      var part := Spaced(texts)[i];
      forall j | 0 <= j < |part| ensures Nesting(part[j]) == 0 && part[j] != ',' {
        assert ItemChar(part[j]) || part[j] == ' ';
      }
      NoParensDepth(part);
    }
  }

  ghost predicate PlainItems(items: seq<Item>) {
    forall i :: 0 <= i < |items| ==> PlainItem(items[i])
  }

  /** The part is the text of the item, with or without a space before it. */
  ghost predicate PartOf(part: string, item: Item) {
    PlainItem(item) && (part == ItemText(item) || part == " " + ItemText(item))
  }

  lemma PartParses(part: string, item: Item)
    requires PartOf(part, item)
    ensures TrimSpace(part) != "" && ItemOf(TrimSpace(part)) == ParsedItem(item)
  {
    ItemIsPlain(ItemText(item));
    ItemParses(item, ItemText(item));
  }

  lemma ParsedItemsSnoc(items: seq<Item>)
    requires items != []
    ensures ParsedItems(items) == ParsedItems(items[..|items| - 1]) + [ParsedItem(items[|items| - 1])]
  {
  }

  lemma {:induction false} PartsParse(parts: seq<string>, items: seq<Item>)
    requires |parts| == |items| && forall i :: 0 <= i < |items| ==> PartOf(parts[i], items[i])
    ensures ItemsOf(parts) == ParsedItems(items)
  {
    if items != [] {
      var n := |items| - 1;
      PartsParse(parts[..n], items[..n]);
      PartParses(parts[n], items[n]);
      ParsedItemsSnoc(items);
    }
  }

  lemma SplitWhole(parts: seq<string>)
    requires parts != [] && WholeParts(parts) && parts[|parts| - 1] != ""
    ensures Split(Join(parts, ",")) == parts
  {
    var front, last := parts[..|parts| - 1], parts[|parts| - 1];
    assert parts == front + [last];
    SplitJoin(front, last);
  }

  lemma SplitSpaced(texts: seq<string>)
    requires texts != [] && forall i :: 0 <= i < |texts| ==> ItemShape(texts[i])
    ensures Split(Join(texts, ", ")) == Spaced(texts)
  {
    JoinSpaced(texts);
    SpacedIsWhole(texts);
    assert texts[|texts| - 1] != "";
    SplitWhole(Spaced(texts));
  }

  /** A printed select list is split and parsed into its items again. */
  lemma ListParses(items: seq<Item>, text: string)
    requires items != [] && PlainItems(items) && text == ListText(Items(items))
    ensures ItemsOf(Split(text)) == ParsedItems(items)
  {
    var texts := ItemTexts(items);
    forall i | 0 <= i < |items| ensures ItemShape(texts[i]) && PartOf(Spaced(texts)[i], items[i]) {
    }
    SplitSpaced(texts);
    PartsParse(Spaced(texts), items);
  }

  lemma {:induction false} JoinEnds(texts: seq<string>)
    requires texts != [] && forall i :: 0 <= i < |texts| ==> ItemShape(texts[i])
    ensures var t := Join(texts, ", "); t != "" && IsStart(t[0]) && ItemChar(t[|t| - 1])
  {
    if |texts| > 1 {
      var front := texts[..|texts| - 1];
      JoinEnds(front);
      assert texts[|texts| - 1] != "";
    }
  }

  ghost predicate PlainList(list: SelectList) {
    list.Items? ==> list.items != [] && PlainItems(list.items)
  }

  /** The select list is a trimmed text free of keywords, and it is `*` only for all columns. */
  lemma ListIsCanonical(list: SelectList)
    requires PlainList(list)
    ensures Trimmed(ListText(list)) && Free(ListText(list))
    ensures ListText(list) == "*" <==> list.Star?
  {
    if list.Star? {
    } else {
      forall i | 0 <= i < |list.items| ensures ItemShape(ItemTexts(list.items)[i]) {
      }
      JoinEnds(ItemTexts(list.items));
      ListIsFree(list.items);
    }
  }

  // ---------------------------------------------------------------------------------------
  // Whole statements

  function Print(q: Select): string {
    SelectText(ListText(q.list), q.table, WhereOrEmpty(q.where, DottedName), TailText(q.order, q.limit, DottedName))
  }

  function PrintFlat(f: FlatSelect): string {
    SelectText(Join(f.columns, ", "), f.table, WhereOrEmpty(f.where, Same), TailText(f.order, f.limit, Same))
  }

  /** Names are identifiers, literals and the table name are trimmed, and neither the table name nor
    * an unqualified name is a clause keyword. */
  ghost predicate Readable(q: Select) {
    && q.table != "" && Trimmed(q.table) && Free(q.table)
    && PlainList(q.list)
    && (q.where.Some? ==> AllCols(q.where.value, Name) && AllLits(q.where.value, Inert))
    && PlainOrder(q.order)
  }

  /** And no keyword of a later clause occurs in the WHERE, be it in a literal. */
  ghost predicate Parses(q: Select) {
    Readable(q) && WhereCarried(q)
  }

  /** And no literal holds a reference. */
  ghost predicate Plain(q: Select) {
    Parses(q) && LiteralsKept(q)
  }

  ghost predicate LiteralsKept(q: Select) {
    q.where.Some? ==> AllLits(q.where.value, NoRef)
  }

  ghost predicate WhereCarried(q: Select) {
    q.where.Some? ==> Carried(Show(q.where.value, DottedName), TailText(q.order, q.limit, DottedName))
  }

  function ParsedList(list: SelectList): seq<QualifiedColumn> {
    if list.Star? then [] else ParsedItems(list.items)
  }

  lemma WhereIsCanonical(q: Select)
    requires Readable(q)
    ensures var where := WhereOrEmpty(q.where, DottedName);
            Trimmed(where) && (where == "" <==> q.where.None?)
  {
    if q.where.Some? {
      ShowIsTrimmed(q.where.value);
    }
  }

  lemma TrimmedEnd(a: string, b: string)
    requires a != "" && !IsSpace(a[0]) && (b == "" ==> !IsSpace(a[|a| - 1])) && (b != "" ==> !IsSpace(b[|b| - 1]))
    ensures Trimmed(a + b) && (a + b)[0] == a[0]
  {
  }

  lemma PrintIsTrimmed(q: Select)
    requires Readable(q)
    ensures Trimmed(Print(q)) && "SELECT" <= Upper(Print(q))
  {
    AnyTailTrimmed(q, TailText(q.order, q.limit, DottedName));
  }

  /** The statement with some other tail. */
  function PrintWith(q: Select, tail: string): string {
    SelectText(ListText(q.list), q.table, WhereOrEmpty(q.where, DottedName), tail)
  }

  lemma AnyTailTrimmed(q: Select, tail: string)
    requires Readable(q) && (tail != "" ==> !IsSpace(tail[|tail| - 1]))
    ensures Trimmed(PrintWith(q, tail)) && "SELECT" <= Upper(PrintWith(q, tail))
  {
    WhereIsCanonical(q);
    TextIsTrimmed("SELECT " + ListText(q.list) + " FROM ", q.table, WhereText(WhereOrEmpty(q.where, DottedName)), tail);
    UpperStart(PrintWith(q, tail), "SELECT");
  }

  lemma TextIsTrimmed(front: string, table: string, where: string, tail: string)
    requires front != "" && !IsSpace(front[0]) && table != "" && Trimmed(table)
    requires where != "" ==> !IsSpace(where[|where| - 1])
    requires tail != "" ==> !IsSpace(tail[|tail| - 1])
    ensures Trimmed(front + table + where + tail)
  {
    TrimmedEnd(front, table);
    TrimmedEnd(front + table, where);
    TrimmedEnd(front + table + where, tail);
  }

  lemma UpperStart(text: string, word: string)
    requires word <= text && Upper(word) == word
    ensures word <= Upper(text)
  {
  }

  /** Parsing the printed statement recovers its items, table, WHERE text and tail. */
  ghost predicate Recovered(q: Select) {
    && ParsedSQL(Print(q))
       == Success(ParsedQuery(q.table, ParsedList(q.list), q.list.Star?, WhereOrEmpty(q.where, DottedName), Print(q)))
    && Trailing(Print(q)) == TailText(q.order, q.limit, DottedName)
  }

  /** The parts of a printed SELECT are recovered exactly when its WHERE text is carried. */
  lemma PrintedParsesIff(q: Select)
    requires Readable(q)
    ensures Recovered(q) <==> WhereCarried(q)
  {
    ListIsCanonical(q.list);
    WhereIsCanonical(q);
    TailStarts(q.order, q.limit);
    TailHasNoWhere(q.order, q.limit);
    ParsePrintedIff(ListText(q.list), q.table, WhereOrEmpty(q.where, DottedName), TailText(q.order, q.limit, DottedName));
    if q.list.Items? {
      ListParses(q.list.items, ListText(q.list));
    }
    PrintIsTrimmed(q);
    TrimTrimmed(Print(q));
  }

  lemma PrintedParses(q: Select)
    requires Parses(q)
    ensures ParsedSQL(Print(q))
            == Success(ParsedQuery(q.table, ParsedList(q.list), q.list.Star?, WhereOrEmpty(q.where, DottedName), Print(q)))
    ensures Trailing(Print(q)) == TailText(q.order, q.limit, DottedName)
  {
    PrintedParsesIff(q);
  }

  /** It is enough that the literals hold no keyword of a later clause. */
  lemma LiteralsDecide(q: Select)
    requires Readable(q) && (q.where.Some? ==> AllLits(q.where.value, NoClause))
    ensures Parses(q)
  {
    if q.where.Some? {
      TailStarts(q.order, q.limit);
      ExprIsCarried(q.where.value, TailText(q.order, q.limit, DottedName));
    }
  }
}
