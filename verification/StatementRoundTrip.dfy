/**
 Writing a statement as text and reading it back.  A selection may stand with or without parentheses, and
 blanks may stand between any two tokens; they have to only where two words or two numbers meet.
 */
module StatementRoundTrip {
  import opened Pages
  import opened Lexer
  import opened Parser

  // ----- statements that can be written -----

  const KEYWORDS: seq<string> := ["select", "from", "create", "table", "not", "null", "insert", "into", "values"]

  /** The largest int of the C++ program. */
  const LARGEST := 2147483647

  predicate IsName(s: string) {
    s != "" && s !in KEYWORDS && forall i :: 0 <= i < |s| ==> 'A' <= s[i] <= 'Z' || 'a' <= s[i] <= 'z'
  }

  predicate IsText(s: string) {
    s != "" && '"' !in s
  }

  predicate PrimaryForm(e: Expr): (r: bool)
    ensures r ==> !e.Binary? && !e.Unary? && !e.Select?
    decreases e, 0
  {
    match e
    case Literal(text) => IsText(text)
    case Name(name) => IsName(name)
    case Number(n) => n <= LARGEST
    case Grouping(inner) => BinaryForm(inner) || SelectForm(inner)
    case _ => false
  }

  predicate UnaryForm(e: Expr): (r: bool)
    ensures r ==> !e.Binary? && !e.Select?
    decreases e, 1
  {
    if e.Unary? then e.op in UNARY_OPERATORS && UnaryForm(e.operand) else PrimaryForm(e)
  }

  /** Binary operators nest to the right. */
  predicate BinaryForm(e: Expr): (r: bool)
    ensures r ==> !e.Select?
    decreases e, 2
  {
    if e.Binary? then UnaryForm(e.lhs) && e.op in BINARY_OPERATORS && BinaryForm(e.rhs) else UnaryForm(e)
  }

  predicate SelectForm(e: Expr)
    decreases e, 2
  {
    && e.Select? && e.inner != []
    && (forall i :: 0 <= i < |e.inner| ==> BinaryForm(e.inner[i]))
    && (e.tblName == "" || IsName(e.tblName))
  }

  predicate WellFormed(s: Statement) {
    match s
    case Selection(e) => SelectForm(e)
    case Creation(tblName, columns) =>
      && IsName(tblName) && columns != []
      && forall i :: 0 <= i < |columns| ==> IsName(columns[i].name) && IsName(columns[i].typeName)
    case Insertion(tblName, columns, values) =>
      && IsName(tblName) && columns != [] && values != []
      && (forall i :: 0 <= i < |columns| ==> IsName(columns[i]))
      && forall i :: 0 <= i < |values| ==> CanBeGiven(values[i])
  }

  predicate CanBeGiven(v: Given) {
    match v
    case GivenText(text) => IsText(text)
    case GivenNumber(n) => n <= LARGEST
    case GivenReal(_) => false
  }

  // ----- writing -----

  function Decimal(n: nat): (s: string)
    ensures s != "" && AllDigits(s) && DigitsValue(s) == n
  {
    var digit := ('0' as int + n % 10) as char;
    if n < 10 then OneDigit(digit); [digit]
    else
      var init := Decimal(n / 10);
      assert (init + [digit])[..|init|] == init;
      init + [digit]
  }

  lemma OneDigit(digit: char)
    requires IsDigit(digit)
    ensures DigitsValue([digit]) == digit as int - '0' as int
  {
    assert [digit][..0] == "";
  }

  function Sign(kind: TokenKind): Token {
    Token(kind, "")
  }

  /** `bare` leaves out the parentheses around what is selected, and around a selection, where it can. */
  function Written(e: Expr, bare: bool): Tokens
    decreases e, 0
  {
    match e
    case Binary(lhs, op, rhs) => Written(lhs, bare) + [Sign(op)] + Written(rhs, bare)
    case Unary(op, operand) => [Sign(op)] + Written(operand, bare)
    case Literal(text) => [Token(Text, text)]
    case Name(name) => [Token(Identifier, name)]
    case Number(n) => [Token(Integer, Decimal(n))]
    case RealNumber(text) => [Token(Real, text)]
    case Grouping(inner) =>
      if bare && inner.Select? && inner.tblName != "" then Written(inner, bare)
      else [Sign(LeftParen)] + Written(inner, bare && !Misread(inner)) + [Sign(RightParen)]
    case Select(inner, tblName) =>
      [Token(SelectWord, "select")]
      + (if bare && |inner| == 1 && !Starts(Written(inner[0], bare), LeftParen) then Written(inner[0], bare)
         else [Sign(LeftParen)] + WrittenList(inner, bare) + [Sign(RightParen)])
      + FromClause(tblName)
  }

  /** Behind an opening parenthesis this would be taken for a selection as a whole. */
  predicate Misread(e: Expr)
    decreases e, 1
  {
    !e.Select? && Starts(Written(e, true), SelectWord)
  }

  function WrittenList(es: seq<Expr>, bare: bool): Tokens
    decreases es, 0
  {
    if es == [] then []
    else if |es| == 1 then Written(es[0], bare)
    else Written(es[0], bare) + [Sign(Comma)] + WrittenList(es[1..], bare)
  }

  function FromClause(tblName: string): Tokens {
    if tblName == "" then [] else [Token(FromWord, "from"), Token(Identifier, tblName)]
  }

  function WrittenColumn(column: TblColumn): Tokens {
    [Token(Identifier, column.name), Token(Identifier, column.typeName)]
    + if column.canBeNull then [Token(NotWord, "not"), Token(NullWord, "null")] else []
  }

  function WrittenColumns(columns: seq<TblColumn>): Tokens {
    if columns == [] then []
    else if |columns| == 1 then WrittenColumn(columns[0])
    else WrittenColumn(columns[0]) + [Sign(Comma)] + WrittenColumns(columns[1..])
  }

  function WrittenNames(names: seq<string>): Tokens {
    if names == [] then []
    else if |names| == 1 then [Token(Identifier, names[0])]
    else [Token(Identifier, names[0]), Sign(Comma)] + WrittenNames(names[1..])
  }

  function WrittenValue(v: Given): Token {
    match v
    case GivenText(text) => Token(Text, text)
    case GivenNumber(n) => Token(Integer, Decimal(n))
    case GivenReal(text) => Token(Real, text)
  }

  function WrittenValues(values: seq<Given>): Tokens {
    if values == [] then []
    else if |values| == 1 then [WrittenValue(values[0])]
    else [WrittenValue(values[0]), Sign(Comma)] + WrittenValues(values[1..])
  }

  function WrittenStatement(s: Statement, bare: bool): Tokens {
    match s
    case Selection(e) => Written(e, bare)
    case Creation(tblName, columns) =>
      [Token(CreateWord, "create"), Token(TableWord, "table"), Token(Identifier, tblName), Sign(LeftParen)]
      + WrittenColumns(columns) + [Sign(RightParen)]
    case Insertion(tblName, columns, values) =>
      [Token(InsertWord, "insert"), Token(IntoWord, "into"), Token(Identifier, tblName), Sign(LeftParen)]
      + WrittenNames(columns) + [Sign(RightParen), Token(ValuesWord, "values"), Sign(LeftParen)]
      + WrittenValues(values) + [Sign(RightParen)]
  }

  // ----- parsing what was written -----

  /** A number is read if and only if it is no larger than 2147483647. */
  lemma NumberReads(n: nat)
    ensures Stoi(Decimal(n)) == if n <= 2147483647 then Some(n) else None
  {
  }

  lemma FormsNest(e: Expr)
    ensures PrimaryForm(e) <==> UnaryForm(e) && !e.Unary?
    ensures UnaryForm(e) <==> BinaryForm(e) && !e.Binary?
  {
  }

  /** What the first token of a written expression is. */
  lemma {:induction false} FirstToken(e: Expr, bare: bool)
    requires BinaryForm(e)
    ensures Written(e, bare) != [] && (Written(e, bare)[0].kind == SelectWord ==> bare)
    ensures PrimaryForm(e) ==> Written(e, bare)[0].kind !in UNARY_OPERATORS
    decreases e
  {
    match e
    case Binary(lhs, _, _) =>
      FormsNest(lhs);
      FirstToken(lhs, bare);
    case _ =>
  }

  lemma {:induction false} PrimaryReads(e: Expr, bare: bool, rest: Tokens)
    requires PrimaryForm(e)
    ensures PrimaryExpr(Written(e, bare) + rest) == Parsed(e, rest)
    decreases e, 0
  {
    hide Group, Stoi, BinaryForm, SelectForm, SelectExpr, Misread;
    if e.Grouping? {
      GroupingReads(e.expr, bare, rest);
      return;
    }
    var ts := Written(e, bare) + rest;
    match e
    case Literal(_) => assert ts[1..] == rest;
    case Name(_) => assert ts[1..] == rest;
    case Number(n) =>
      NumberReads(n);
      assert ts[1..] == rest;
  }

  lemma {:induction false} GroupingReads(inner: Expr, bare: bool, rest: Tokens)
    requires BinaryForm(inner) || SelectForm(inner)
    ensures PrimaryExpr(Written(Grouping(inner), bare) + rest) == Parsed(Grouping(inner), rest)
    decreases inner, 4
  {
    hide Group, SelectExpr, Misread;
    if bare && inner.Select? && inner.tblName != "" {
      assert Written(Grouping(inner), bare) == Written(inner, bare);
      NestedReads(inner, bare, rest);
    } else {
      var style := bare && !Misread(inner);
      var enclosed := [Sign(LeftParen)] + Written(inner, style) + [Sign(RightParen)];
      assert Written(Grouping(inner), bare) == enclosed;
      assert (enclosed + rest)[1..] == Written(inner, style) + ([Sign(RightParen)] + rest);
      GroupReads(inner, style, rest);
    }
  }

  /** A selection within an expression needs no parentheses, unless what follows would become part of it. */
  lemma {:induction false} NestedReads(e: Expr, bare: bool, rest: Tokens)
    requires SelectForm(e)
    requires e.tblName == "" ==> !Starts(rest, FromWord) && !StartsWithAny(rest, BINARY_OPERATORS)
    ensures PrimaryExpr(Written(e, bare) + rest) == Parsed(Grouping(e), rest)
    decreases e, 3
  {
    hide Group, SelectExpr, SelectForm;
    SelectReads(e, bare, rest);
  }

  lemma {:induction false} GroupReads(inner: Expr, bare: bool, rest: Tokens)
    requires BinaryForm(inner) || SelectForm(inner)
    requires bare ==> !Misread(inner)
    ensures Group(Written(inner, bare) + ([Sign(RightParen)] + rest)) == Parsed(Grouping(inner), rest)
    decreases inner, 3
  {
    var behind := [Sign(RightParen)] + rest;
    var ts := Written(inner, bare) + behind;
    assert behind[1..] == rest;
    if inner.Select? {
      SelectReads(inner, bare, behind);
    } else {
      FirstToken(inner, bare);
      assert ts[0] == Written(inner, bare)[0];
      BinaryReads(inner, bare, behind);
    }
  }

  lemma {:induction false} UnaryReads(e: Expr, bare: bool, rest: Tokens)
    requires UnaryForm(e)
    ensures UnaryExpr(Written(e, bare) + rest) == Parsed(e, rest)
    decreases e, 1
  {
    var ts := Written(e, bare) + rest;
    if e.Unary? {
      assert ts[1..] == Written(e.operand, bare) + rest;
      UnaryReads(e.operand, bare, rest);
    } else {
      FormsNest(e);
      FirstToken(e, bare);
      assert ts[0] == Written(e, bare)[0];
      PrimaryReads(e, bare, rest);
    }
  }

  lemma {:induction false} BinaryReads(e: Expr, bare: bool, rest: Tokens)
    requires BinaryForm(e) && !StartsWithAny(rest, BINARY_OPERATORS)
    ensures BinaryExpr(Written(e, bare) + rest) == Parsed(e, rest)
    decreases e, 2
  {
    if e.Binary? {
      var behind := [Sign(e.op)] + (Written(e.rhs, bare) + rest);
      assert Written(e, bare) + rest == Written(e.lhs, bare) + behind;
      assert behind[1..] == Written(e.rhs, bare) + rest;
      UnaryReads(e.lhs, bare, behind);
      BinaryReads(e.rhs, bare, rest);
    } else {
      UnaryReads(e, bare, rest);
    }
  }

  lemma {:induction false} ListReads(es: seq<Expr>, bare: bool, rest: Tokens)
    requires es != [] && forall i :: 0 <= i < |es| ==> BinaryForm(es[i])
    requires Starts(rest, RightParen)
    ensures ExprList(WrittenList(es, bare) + rest) == Parsed(es, rest)
    decreases es, 0
  {
    hide BinaryForm, BinaryExpr, Written, Prefixed;
    if |es| == 1 {
      BinaryReads(es[0], bare, rest);
      assert es == [es[0]];
    } else {
      var behind := [Sign(Comma)] + (WrittenList(es[1..], bare) + rest);
      assert WrittenList(es, bare) + rest == Written(es[0], bare) + behind;
      assert behind[1..] == WrittenList(es[1..], bare) + rest;
      BinaryReads(es[0], bare, behind);
      ListReads(es[1..], bare, rest);
      PrefixedBy([es[0]], es[1..], rest);
      assert es == [es[0]] + es[1..];
    }
  }

  lemma {:induction false} SelectedReads(inner: seq<Expr>, bare: bool, rest: Tokens)
    requires inner != [] && forall i :: 0 <= i < |inner| ==> BinaryForm(inner[i])
    ensures Selected([Sign(LeftParen)] + (WrittenList(inner, bare) + ([Sign(RightParen)] + rest))) == Parsed(inner, rest)
    decreases inner, 1
  {
    hide BinaryForm, BinaryExpr, ExprList, WrittenList;
    var behind := [Sign(RightParen)] + rest;
    var ts := [Sign(LeftParen)] + (WrittenList(inner, bare) + behind);
    assert ts[1..] == WrittenList(inner, bare) + behind && behind[1..] == rest;
    ListReads(inner, bare, behind);
  }

  /** One expression without parentheses around it is selected alone. */
  lemma {:induction false} OneSelectedReads(e: Expr, bare: bool, rest: Tokens)
    requires BinaryForm(e) && !Starts(Written(e, bare), LeftParen) && !StartsWithAny(rest, BINARY_OPERATORS)
    ensures Selected(Written(e, bare) + rest) == Parsed([e], rest)
    decreases e, 4
  {
    hide BinaryForm, BinaryExpr, ExprList;
    FirstToken(e, bare);
    BinaryReads(e, bare, rest);
  }

  lemma NoOperator(tblName: string, rest: Tokens)
    requires tblName == "" ==> !StartsWithAny(rest, BINARY_OPERATORS)
    ensures !StartsWithAny(FromClause(tblName) + rest, BINARY_OPERATORS)
  {
    if tblName == "" { assert FromClause(tblName) + rest == rest; }
  }

  lemma TableReads(ts: Tokens, inner: seq<Expr>, tblName: string, rest: Tokens)
    requires Selected(ts) == Parsed(inner, FromClause(tblName) + rest)
    requires tblName == "" ==> !Starts(rest, FromWord)
    ensures SelectExpr(ts) == Parsed(Select(inner, tblName), rest)
  {
    hide Selected;
    var from := FromClause(tblName) + rest;
    if tblName == "" {
      assert from == rest;
    } else {
      assert from[1].literal == tblName && from[2..] == rest;
    }
  }

  /** Without a table and without parentheses the selection would go on with an operator behind it. */
  lemma {:induction false} SelectReads(e: Expr, bare: bool, rest: Tokens)
    requires SelectForm(e)
    requires e.tblName == "" ==> !Starts(rest, FromWord) && !StartsWithAny(rest, BINARY_OPERATORS)
    ensures Starts(Written(e, bare) + rest, SelectWord)
    ensures SelectExpr((Written(e, bare) + rest)[1..]) == Parsed(e, rest)
    decreases e, 2
  {
    hide BinaryForm, Selected, SelectExpr, WrittenList, BINARY_OPERATORS;
    var from := FromClause(e.tblName) + rest;
    var ts := (Written(e, bare) + rest)[1..];
    if bare && |e.inner| == 1 && !Starts(Written(e.inner[0], bare), LeftParen) {
      assert Written(e, bare) == [Token(SelectWord, "select")] + Written(e.inner[0], bare) + FromClause(e.tblName);
      assert ts == Written(e.inner[0], bare) + from;
      NoOperator(e.tblName, rest);
      OneSelectedReads(e.inner[0], bare, from);
      assert e.inner == [e.inner[0]];
    } else {
      var list := [Sign(LeftParen)] + WrittenList(e.inner, bare) + [Sign(RightParen)];
      assert Written(e, bare) == [Token(SelectWord, "select")] + list + FromClause(e.tblName);
      assert ts == [Sign(LeftParen)] + (WrittenList(e.inner, bare) + ([Sign(RightParen)] + from));
      SelectedReads(e.inner, bare, from);
    }
    TableReads(ts, e.inner, e.tblName, rest);
  }

  lemma ColumnReads(column: TblColumn, rest: Tokens)
    requires rest != [] && rest[0].kind != NotWord
    ensures ColumnDef(WrittenColumn(column) + rest) == Parsed(column, rest)
  {
    var ts := WrittenColumn(column) + rest;
    assert ts[0] == Token(Identifier, column.name) && ts[1..][0] == Token(Identifier, column.typeName);
    if column.canBeNull {
      assert ts[2..][0].kind == NotWord && ts[3..][0].kind == NullWord && ts[4..] == rest;
    } else {
      assert ts[2..] == rest;
    }
  }

  lemma PrefixedBy<T>(done: seq<T>, more: seq<T>, rest: Tokens)
    ensures Prefixed(done, Parsed(more, rest)) == Parsed(done + more, rest)
  {
  }

  lemma {:induction false} ColumnsRead(columns: seq<TblColumn>, rest: Tokens)
    requires columns != []
    ensures ColumnDefs(WrittenColumns(columns) + ([Sign(RightParen)] + rest)) == Parsed(columns, rest)
  {
    hide ColumnDef, WrittenColumn, Prefixed;
    var end := [Sign(RightParen)] + rest;
    assert end[1..] == rest;
    if |columns| == 1 {
      ColumnReads(columns[0], end);
      assert columns == [columns[0]];
    } else {
      var behind := [Sign(Comma)] + (WrittenColumns(columns[1..]) + end);
      assert WrittenColumns(columns) + end == WrittenColumn(columns[0]) + behind;
      assert behind[1..] == WrittenColumns(columns[1..]) + end;
      ColumnReads(columns[0], behind);
      ColumnsRead(columns[1..], rest);
      PrefixedBy([columns[0]], columns[1..], rest);
      assert columns == [columns[0]] + columns[1..];
    }
  }

  lemma {:induction false} NamesRead(names: seq<string>, rest: Tokens)
    requires names != []
    ensures ColumnNames(WrittenNames(names) + ([Sign(RightParen)] + rest)) == Parsed(names, rest)
  {
    hide Prefixed, ColumnNames;
    var end := [Sign(RightParen)] + rest;
    if |names| == 1 {
      LastNameReads(names[0], rest);
      assert names == [names[0]];
    } else {
      var more := WrittenNames(names[1..]) + end;
      assert WrittenNames(names) + end == [Token(Identifier, names[0]), Sign(Comma)] + more;
      NamesRead(names[1..], rest);
      NameReads(names[0], more);
      PrefixedBy([names[0]], names[1..], rest);
      assert names == [names[0]] + names[1..];
    }
  }

  lemma {:induction false} LastNameReads(name: string, rest: Tokens)
    ensures ColumnNames([Token(Identifier, name)] + ([Sign(RightParen)] + rest)) == Parsed([name], rest)
  {
    var ts := [Token(Identifier, name)] + ([Sign(RightParen)] + rest);
    assert ts[1..][0].kind == RightParen && ts[2..] == rest;
  }

  lemma {:induction false} NameReads(name: string, more: Tokens)
    ensures ColumnNames([Token(Identifier, name), Sign(Comma)] + more) == Prefixed([name], ColumnNames(more))
  {
    var ts := [Token(Identifier, name), Sign(Comma)] + more;
    assert ts[1..][0].kind == Comma && ts[2..] == more;
  }

  lemma ValueReads(v: Given)
    requires CanBeGiven(v)
    ensures GivenValue(WrittenValue(v)) == Some(v)
  {
  }

  lemma {:induction false} ValuesRead(values: seq<Given>, rest: Tokens)
    requires values != [] && forall i :: 0 <= i < |values| ==> CanBeGiven(values[i])
    ensures GivenValues(WrittenValues(values) + ([Sign(RightParen)] + rest)) == Parsed(values, rest)
  {
    hide GivenValues, CanBeGiven, WrittenValue, Prefixed;
    var end := [Sign(RightParen)] + rest;
    if |values| == 1 {
      LastValueReads(values[0], rest);
      assert values == [values[0]];
    } else {
      var more := WrittenValues(values[1..]) + end;
      assert WrittenValues(values) + end == [WrittenValue(values[0]), Sign(Comma)] + more;
      ValuesRead(values[1..], rest);
      ValueThenReads(values[0], more);
      PrefixedBy([values[0]], values[1..], rest);
      assert values == [values[0]] + values[1..];
    }
  }

  lemma LastValueReads(v: Given, rest: Tokens)
    requires CanBeGiven(v)
    ensures GivenValues([WrittenValue(v)] + ([Sign(RightParen)] + rest)) == Parsed([v], rest)
  {
    hide GivenValue, CanBeGiven, WrittenValue;
    ValueReads(v);
    var ts := [WrittenValue(v)] + ([Sign(RightParen)] + rest);
    assert ts[1..][0].kind == RightParen && ts[2..] == rest;
  }

  lemma ValueThenReads(v: Given, more: Tokens)
    requires CanBeGiven(v)
    ensures GivenValues([WrittenValue(v), Sign(Comma)] + more) == Prefixed([v], GivenValues(more))
  {
    hide GivenValue, CanBeGiven, WrittenValue;
    ValueReads(v);
    var ts := [WrittenValue(v), Sign(Comma)] + more;
    assert ts[1..][0].kind == Comma && ts[2..] == more;
  }

  /** Parsing the tokens of a statement gives the statement and leaves nothing. */
  lemma StatementParses(s: Statement, bare: bool)
    requires WellFormed(s)
    ensures Parse(WrittenStatement(s, bare)) == Parsed(s, [])
  {
    match s
    case Selection(e) =>
      assert Written(e, bare) + [] == Written(e, bare);
      SelectReads(e, bare, []);
    case Creation(tblName, columns) => CreationParses(tblName, columns, bare);
    case Insertion(tblName, columns, values) => InsertionParses(tblName, columns, values, bare);
  }

  lemma CreationParses(tblName: string, columns: seq<TblColumn>, bare: bool)
    requires columns != []
    ensures Parse(WrittenStatement(Creation(tblName, columns), bare)) == Parsed(Creation(tblName, columns), [])
  {
    hide ColumnDefs, WrittenColumns;
    var ts := WrittenStatement(Creation(tblName, columns), bare);
    var list := WrittenColumns(columns) + ([Sign(RightParen)] + []);
    assert ts[1..] == [Token(TableWord, "table"), Token(Identifier, tblName), Sign(LeftParen)] + list;
    assert ts[1..][3..] == list;
    ColumnsRead(columns, []);
  }

  lemma InsertionParses(tblName: string, columns: seq<string>, values: seq<Given>, bare: bool)
    requires WellFormed(Insertion(tblName, columns, values))
    ensures Parse(WrittenStatement(Insertion(tblName, columns, values), bare))
         == Parsed(Insertion(tblName, columns, values), [])
  {
    hide ColumnNames, GivenValues, WrittenNames, WrittenValues, CanBeGiven;
    var ts := WrittenStatement(Insertion(tblName, columns, values), bare);
    var last := WrittenValues(values) + ([Sign(RightParen)] + []);
    var behind := [Token(ValuesWord, "values"), Sign(LeftParen)] + last;
    var list := WrittenNames(columns) + ([Sign(RightParen)] + behind);
    assert ts[1..] == [Token(IntoWord, "into"), Token(Identifier, tblName), Sign(LeftParen)] + list;
    assert ts[1..][3..] == list && behind[2..] == last;
    NamesRead(columns, behind);
    ValuesRead(values, []);
  }

  // ----- tokens as text -----

  function Word(kind: TokenKind): Option<string> {
    match kind
    case SelectWord => Some("select")
    case FromWord => Some("from")
    case CreateWord => Some("create")
    case TableWord => Some("table")
    case NotWord => Some("not")
    case NullWord => Some("null")
    case InsertWord => Some("insert")
    case IntoWord => Some("into")
    case ValuesWord => Some("values")
    case _ => None
  }

  function Mark(kind: TokenKind): Option<char> {
    match kind
    case LeftParen => Some('(')
    case RightParen => Some(')')
    case Add => Some('+')
    case Subtract => Some('-')
    case Divide => Some('/')
    case Star => Some('*')
    case Comma => Some(',')
    case Dot => Some('.')
    case Bang => Some('!')
    case Eof => Some(';')
    case _ => None
  }

  predicate IsWord(t: Token) {
    t.kind.Identifier? || Word(t.kind).Some?
  }

  /** Tokens that some text stands for. */
  predicate Spellable(t: Token) {
    match t.kind
    case Identifier => IsName(t.literal)
    case Text => IsText(t.literal)
    case Integer => t.literal != "" && AllDigits(t.literal)
    case Real => false
    case _ => if Mark(t.kind).Some? then t.literal == "" else Word(t.kind) == Some(t.literal)
  }

  function Spelling(t: Token): string {
    if t.kind.Text? then "\"" + t.literal + "\""
    else if Mark(t.kind).Some? then [Mark(t.kind).value]
    else t.literal
  }

  /** Spaces, newlines, carriage returns and tabs, in any number. */
  predicate IsGap(s: string) {
    forall i :: 0 <= i < |s| ==> s[i] in " \n\r\t"
  }

  /** Written without a gap these two would be read as one token. */
  predicate RunTogether(t: Token, u: Token) {
    (IsWord(t) && IsWord(u)) || (t.kind.Integer? && u.kind.Integer?)
  }

  predicate Gaps(ts: Tokens, gaps: seq<string>) {
    |gaps| == |ts| && forall i :: 0 <= i < |gaps| ==> IsGap(gaps[i])
  }

  /** Where two tokens would run together something stands between them. */
  predicate Apart(ts: Tokens, gaps: seq<string>)
    requires Gaps(ts, gaps)
  {
    forall i :: 0 <= i < |ts| - 1 && RunTogether(ts[i], ts[i + 1]) ==> gaps[i] != ""
  }

  /** The tokens as text, a gap behind each. */
  function TextOf(ts: Tokens, gaps: seq<string>): string
    requires Gaps(ts, gaps)
  {
    if ts == [] then "" else Spelling(ts[0]) + (gaps[0] + TextOf(ts[1..], gaps[1..]))
  }

  /** The fewest blanks that keep the tokens apart. */
  function Tightest(ts: Tokens): (gaps: seq<string>)
    ensures Gaps(ts, gaps) && Apart(ts, gaps)
  {
    seq(|ts|, i requires 0 <= i < |ts| => if i < |ts| - 1 && RunTogether(ts[i], ts[i + 1]) then " " else "")
  }

  lemma WordIsWord(t: Token)
    requires Spellable(t) && IsWord(t)
    ensures t.literal != "" && forall i :: 0 <= i < |t.literal| ==> IsLetter(t.literal[i])
    ensures (if Keyword(t.literal).Some? then Keyword(t.literal).value else Identifier) == t.kind
  {
  }

  lemma NoMark(c: char)
    requires IsLetter(c) || IsDigit(c)
    ensures Punctuation(c).None? && !IsBlank(c) && c != '"' && c != '\0'
  {
  }

  /** A word is read whole if and only if no letter follows it; the token has the word's kind. */
  lemma WordReads(t: Token, more: string)
    requires Spellable(t) && IsWord(t)
    ensures Front(t.literal + more) == Found(t, |t.literal|) <==> !IsLetter(CharAt(more, 0))
    ensures Front(t.literal + more).Found? && |Front(t.literal + more).token.literal| >= |t.literal|
  {
    hide Keyword, Spellable, Word;
    var s := t.literal + more;
    WordIsWord(t);
    assert s[0] == t.literal[0];
    NoMark(s[0]);
    var end := WordEnd(s, 0);
    assert CharAt(s, |t.literal|) == CharAt(more, 0);
    assert forall i :: 0 <= i < |t.literal| ==> CharAt(s, i) == t.literal[i];
    if end > |t.literal| - 1 { assert s[|t.literal|] == more[0]; }
    assert s[..|t.literal|] == t.literal;
  }

  /** A number is read whole if and only if no digit follows it. */
  lemma NumberTokenReads(t: Token, more: string)
    requires Spellable(t) && t.kind.Integer?
    ensures Front(t.literal + more) == Found(t, |t.literal|) <==> !IsDigit(CharAt(more, 0))
    ensures Front(t.literal + more).Found? && |Front(t.literal + more).token.literal| >= |t.literal|
  {
    var s := t.literal + more;
    assert s[0] == t.literal[0];
    NoMark(s[0]);
    var end := NumberEnd(s, 0);
    assert CharAt(s, |t.literal|) == CharAt(more, 0);
    assert forall i :: 0 <= i < |t.literal| ==> CharAt(s, i) == t.literal[i];
    if end > |t.literal| - 1 { assert s[|t.literal|] == more[0]; }
    assert s[..|t.literal|] == t.literal;
  }

  /** A string is read up to its closing quote, whatever follows. */
  lemma TextReads(text: string, more: string)
    requires IsText(text)
    ensures Front("\"" + text + "\"" + more) == Found(Token(Text, text), |text| + 2)
  {
    var s := "\"" + text + "\"" + more;
    var end := StringEnd(s, 1);
    assert forall i :: 1 <= i <= |text| ==> CharAt(s, i) == text[i - 1];
    assert CharAt(s, |text| + 1) == '"';
    assert s[0] == '"' && (s + "\0")[1..|text| + 1] == text;
  }

  lemma MarkReads(kind: TokenKind, more: string)
    requires Mark(kind).Some?
    ensures Mark(kind).value != '\0' && Front([Mark(kind).value] + more) == Found(Token(kind, ""), 1)
  {
  }

  /** What may not follow a token at once. */
  predicate GoesOn(t: Token, c: char) {
    (IsWord(t) && ('A' <= c <= 'Z' || 'a' <= c <= 'z')) || (t.kind.Integer? && '0' <= c <= '9')
  }

  /** A token at the front of a text is read as that token if and only if the text behind it does not go on with it. */
  lemma FrontReads(t: Token, more: string)
    requires Spellable(t)
    ensures Spelling(t) != "" && Spelling(t)[0] != '\0'
    ensures Front(Spelling(t) + more) == Found(t, |Spelling(t)|) <==> !GoesOn(t, CharAt(more, 0))
    ensures Front(Spelling(t) + more).Found?
    ensures Front(Spelling(t) + more).token == t ==> Front(Spelling(t) + more).size == |Spelling(t)|
  {
    if IsWord(t) {
      WordIsWord(t);
      NoMark(t.literal[0]);
      WordReads(t, more);
    } else if t.kind.Text? {
      TextReads(t.literal, more);
    } else if t.kind.Integer? {
      NoMark(t.literal[0]);
      NumberTokenReads(t, more);
    } else {
      MarkReads(t.kind, more);
    }
  }

  lemma GapLexes(gap: string, more: string)
    requires IsGap(gap)
    ensures Lex(gap + more) == Lex(more)
  {
    hide Front;
    if gap == "" {
      assert gap + more == more;
    } else {
      assert (gap + more)[0] == gap[0] && (gap + more)[1..] == gap[1..] + more;
      BlankFront(gap + more);
      GapLexes(gap[1..], more);
    }
  }

  lemma BlankFront(s: string)
    requires s != "" && s[0] in " \n\r\t"
    ensures s[0] != '\0' && Front(s) == Blank
  {
  }

  /** What stands behind the first token goes on with it exactly when the two would run together. */
  lemma BehindFirst(ts: Tokens, gaps: seq<string>)
    requires ts != [] && Gaps(ts, gaps) && forall i :: 0 <= i < |ts| ==> Spellable(ts[i])
    ensures GoesOn(ts[0], CharAt(gaps[0] + TextOf(ts[1..], gaps[1..]), 0))
        <==> gaps[0] == "" && |ts| > 1 && RunTogether(ts[0], ts[1])
  {
    hide Keyword;
    var behind := gaps[0] + TextOf(ts[1..], gaps[1..]);
    if gaps[0] != "" {
      assert CharAt(behind, 0) == gaps[0][0] && gaps[0][0] in " \n\r\t";
    } else if |ts| > 1 {
      FirstCharacter(ts[1]);
      assert CharAt(behind, 0) == Spelling(ts[1])[0];
    } else {
      assert behind == "";
    }
  }

  lemma FirstCharacter(t: Token)
    requires Spellable(t)
    ensures Spelling(t) != ""
    ensures IsLetter(Spelling(t)[0]) <==> IsWord(t)
    ensures IsDigit(Spelling(t)[0]) <==> t.kind.Integer?
  {
    hide Keyword;
    if IsWord(t) { WordIsWord(t); }
  }

  /**
   Lexing the text of a list of tokens gives the list, if and only if something stands wherever two tokens
   would run together.
   */
  lemma {:induction false} TextLexes(ts: Tokens, gaps: seq<string>)
    requires Gaps(ts, gaps) && forall i :: 0 <= i < |ts| ==> Spellable(ts[i])
    ensures Lex(TextOf(ts, gaps)) == Some(ts) <==> Apart(ts, gaps)
  {
    hide Front, Spellable, Spelling, IsGap, RunTogether, GoesOn;
    if ts != [] {
      var word, more := Spelling(ts[0]), TextOf(ts[1..], gaps[1..]);
      var behind := gaps[0] + more;
      var s := word + behind;
      FrontReads(ts[0], behind);
      BehindFirst(ts, gaps);
      TextLexes(ts[1..], gaps[1..]);
      assert s[0] == word[0] && Rest(s, |word|) == behind;
      GapLexes(gaps[0], more);
      ApartBehind(ts, gaps);
      assert [ts[0]] + ts[1..] == ts;
    }
  }

  lemma ApartBehind(ts: Tokens, gaps: seq<string>)
    requires ts != [] && Gaps(ts, gaps)
    ensures Apart(ts, gaps)
       <==> Apart(ts[1..], gaps[1..]) && !(gaps[0] == "" && |ts| > 1 && RunTogether(ts[0], ts[1]))
  {
    hide RunTogether;
    if Apart(ts[1..], gaps[1..]) && !(gaps[0] == "" && |ts| > 1 && RunTogether(ts[0], ts[1])) {
      forall i | 0 <= i < |ts| - 1 && RunTogether(ts[i], ts[i + 1]) ensures gaps[i] != "" {
        if i > 0 { assert ts[1..][i - 1] == ts[i] && ts[1..][i] == ts[i + 1] && gaps[1..][i - 1] == gaps[i]; }
      }
    }
    if Apart(ts, gaps) {
      forall i | 0 <= i < |ts[1..]| - 1 && RunTogether(ts[1..][i], ts[1..][i + 1]) ensures gaps[1..][i] != "" {
        assert ts[1..][i] == ts[i + 1] && ts[1..][i + 1] == ts[i + 2] && gaps[1..][i] == gaps[i + 1];
      }
    }
  }

  // ----- the round trip -----

  ghost predicate AllSpellable(ts: Tokens) {
    forall i :: 0 <= i < |ts| ==> Spellable(ts[i])
  }

  lemma AllSpellableConcat(a: Tokens, b: Tokens)
    requires AllSpellable(a) && AllSpellable(b)
    ensures AllSpellable(a + b)
  {
  }

  lemma SignSpellable(kind: TokenKind)
    requires kind in BINARY_OPERATORS || kind in UNARY_OPERATORS || kind.LeftParen? || kind.RightParen? || kind.Comma?
    ensures AllSpellable([Sign(kind)])
  {
  }

  lemma PrimarySpellable(e: Expr, bare: bool)
    requires PrimaryForm(e) && !e.Grouping?
    ensures AllSpellable(Written(e, bare))
  {
    hide Keyword;
  }

  lemma {:induction false} ExprSpellable(e: Expr, bare: bool)
    requires BinaryForm(e) || SelectForm(e)
    ensures AllSpellable(Written(e, bare))
    decreases e
  {
    hide AllSpellable, Spellable, FromClause;
    FormsNest(e);
    match e
    case Binary(lhs, op, rhs) =>
      FormsNest(lhs);
      ExprSpellable(lhs, bare);
      SignSpellable(op);
      ExprSpellable(rhs, bare);
      AllSpellableConcat(Written(lhs, bare), [Sign(op)]);
      AllSpellableConcat(Written(lhs, bare) + [Sign(op)], Written(rhs, bare));
    case Unary(op, operand) =>
      FormsNest(operand);
      ExprSpellable(operand, bare);
      SignSpellable(op);
      AllSpellableConcat([Sign(op)], Written(operand, bare));
    case Grouping(inner) =>
      ExprSpellable(inner, bare);
      ExprSpellable(inner, false);
      EnclosedSpellable(Written(inner, bare && !Misread(inner)));
    case Select(inner, tblName) =>
      ExprSpellable(inner[0], bare);
      ListSpellable(inner, bare);
      SelectSpellable(inner, tblName, bare);
    case _ =>
      PrimarySpellable(e, bare);
  }

  lemma EnclosedSpellable(ts: Tokens)
    requires AllSpellable(ts)
    ensures AllSpellable([Sign(LeftParen)] + ts + [Sign(RightParen)])
  {
  }

  lemma SelectSpellable(inner: seq<Expr>, tblName: string, bare: bool)
    requires inner != [] && AllSpellable(Written(inner[0], bare))
    requires AllSpellable(WrittenList(inner, bare)) && (tblName == "" || IsName(tblName))
    ensures AllSpellable(Written(Select(inner, tblName), bare))
  {
    hide WrittenList, Keyword, Spellable;
    var selected := if bare && |inner| == 1 && !Starts(Written(inner[0], bare), LeftParen) then Written(inner[0], bare)
                    else [Sign(LeftParen)] + WrittenList(inner, bare) + [Sign(RightParen)];
    EnclosedSpellable(WrittenList(inner, bare));
    assert AllSpellable(selected);
    SelectAndFromSpellable(tblName);
    AllSpellableConcat([Token(SelectWord, "select")], selected);
    AllSpellableConcat([Token(SelectWord, "select")] + selected, FromClause(tblName));
  }

  lemma SelectAndFromSpellable(tblName: string)
    requires tblName == "" || IsName(tblName)
    ensures AllSpellable([Token(SelectWord, "select")]) && AllSpellable(FromClause(tblName))
  {
  }

  lemma {:induction false} ListSpellable(es: seq<Expr>, bare: bool)
    requires forall i :: 0 <= i < |es| ==> BinaryForm(es[i])
    ensures AllSpellable(WrittenList(es, bare))
    decreases es
  {
    hide BinaryForm, Written, AllSpellable;
    if es == [] {
      assert AllSpellable([]) by { NoneSpellable(); }
    } else {
      ExprSpellable(es[0], bare);
      ListSpellable(es[1..], bare);
      SignSpellable(Comma);
      AllSpellableConcat(Written(es[0], bare), [Sign(Comma)]);
      AllSpellableConcat(Written(es[0], bare) + [Sign(Comma)], WrittenList(es[1..], bare));
    }
  }

  lemma NoneSpellable()
    ensures AllSpellable([])
  {
  }

  /** Reading any text of a statement gives the statement back: with or without parentheses, with blanks anywhere. */
  lemma StatementReadsBack(s: Statement, bare: bool, lead: string, gaps: seq<string>)
    requires WellFormed(s) && IsGap(lead)
    requires Gaps(WrittenStatement(s, bare), gaps) && Apart(WrittenStatement(s, bare), gaps)
    ensures Lex(lead + TextOf(WrittenStatement(s, bare), gaps)) == Some(WrittenStatement(s, bare))
    ensures Parse(WrittenStatement(s, bare)) == Parsed(s, [])
  {
    var ts := WrittenStatement(s, bare);
    StatementSpellable(s, bare);
    TextLexes(ts, gaps);
    GapLexes(lead, TextOf(ts, gaps));
    StatementParses(s, bare);
  }

  lemma StatementSpellable(s: Statement, bare: bool)
    requires WellFormed(s)
    ensures AllSpellable(WrittenStatement(s, bare))
  {
    hide SelectForm, CanBeGiven, Written, WrittenColumns, WrittenNames, WrittenValues, Keyword;
    match s
    case Selection(e) => ExprSpellable(e, bare);
    case Creation(_, columns) => ColumnsSpellable(columns);
    case Insertion(_, columns, values) =>
      NamesSpellable(columns);
      ValuesSpellable(values);
  }

  lemma {:induction false} ColumnsSpellable(columns: seq<TblColumn>)
    requires forall i :: 0 <= i < |columns| ==> IsName(columns[i].name) && IsName(columns[i].typeName)
    ensures AllSpellable(WrittenColumns(columns))
  {
    if columns != [] { ColumnsSpellable(columns[1..]); }
  }

  lemma {:induction false} NamesSpellable(names: seq<string>)
    requires forall i :: 0 <= i < |names| ==> IsName(names[i])
    ensures AllSpellable(WrittenNames(names))
  {
    if names != [] { NamesSpellable(names[1..]); }
  }

  lemma {:induction false} ValuesSpellable(values: seq<Given>)
    requires forall i :: 0 <= i < |values| ==> CanBeGiven(values[i])
    ensures AllSpellable(WrittenValues(values))
  {
    if values != [] { ValuesSpellable(values[1..]); }
  }

  // ----- the front end itself -----

  /** Lexes and parses a text; `left` is the number of tokens behind the statement, which are ignored. */
  method ReadStatement(text: string) returns (r: Outcome<Statement>, left: nat)
    ensures r.Returned? <==> text != "" && Lex(text).Some? && Parse(Lex(text).value).Parsed?
    ensures r.Returned? ==>
              && Parse(Lex(text).value).value == r.value
              && |Parse(Lex(text).value).rest| == left
  {
    hide Lex, Parse;
    left := 0;
    var tokens := Tokenize(text);
    if tokens.Thrown? { return Thrown, left; }
    var cursor := new Cursor(tokens.value);
    assert cursor.Left() == tokens.value;
    r := cursor.ParseStatement();
    left := |cursor.tokens| - cursor.cursor;
  }

  /** Reads back what it wrote, to the last token. */
  method WriteAndRead(s: Statement, bare: bool, lead: string, gaps: seq<string>)
    returns (r: Outcome<Statement>, left: nat)
    requires WellFormed(s) && IsGap(lead)
    requires Gaps(WrittenStatement(s, bare), gaps) && Apart(WrittenStatement(s, bare), gaps)
    ensures r == Returned(s) && left == 0
  {
    hide Lex, Parse, WellFormed, Spelling, Apart, IsGap;
    var ts := WrittenStatement(s, bare);
    StatementReadsBack(s, bare, lead, gaps);
    assert ts != [] by { StatementHasTokens(s, bare); }
    NothingToLex();
    r, left := ReadStatement(lead + TextOf(ts, gaps));
  }

  lemma NothingToLex()
    ensures Lex("") == Some([])
  {
  }

  lemma StatementHasTokens(s: Statement, bare: bool)
    requires WellFormed(s)
    ensures WrittenStatement(s, bare) != []
  {
  }
}
