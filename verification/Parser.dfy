/**
 The recursive-descent parser.  The functions say what is parsed at the front of a list of tokens and
 what is left; the methods of the class do the same by moving a cursor.
 */
module Parser {
  import opened Pages
  import opened Lexer

  datatype Expr =
    | Binary(lhs: Expr, op: TokenKind, rhs: Expr)
    | Unary(op: TokenKind, operand: Expr)
    | Literal(text: string)
    | Name(name: string)
    | Number(n: nat)
    | RealNumber(text: string)
    | Grouping(expr: Expr)
    | Select(inner: seq<Expr>, tblName: string)

  datatype TblColumn = TblColumn(name: string, typeName: string, canBeNull: bool)

  /** Values in an insertion; the text of a real is not looked into. */
  datatype Given = GivenText(text: string) | GivenNumber(n: nat) | GivenReal(text: string)

  datatype Statement =
    | Selection(select: Expr)
    | Creation(tblName: string, tblColumns: seq<TblColumn>)
    | Insertion(tblName: string, columns: seq<string>, values: seq<Given>)

  datatype Parsed<+T> = Parsed(value: T, rest: seq<Token>) | Failed

  type Tokens = seq<Token>

  const BINARY_OPERATORS: seq<TokenKind> := [Add, Subtract, Divide, Star]
  const UNARY_OPERATORS: seq<TokenKind> := [Subtract, Bang]

  // ----- numbers -----

  const INT_MAX := 0x7FFF_FFFF

  predicate AllDigits(s: string) {
    forall i :: 0 <= i < |s| ==> IsDigit(s[i])
  }

  function DigitsValue(s: string): nat
    requires AllDigits(s)
  {
    if s == "" then 0 else 10 * DigitsValue(s[..|s| - 1]) + (s[|s| - 1] as int - '0' as int)
  }

  /** Integer tokens consist of digits; a number that does not fit an int is refused. */
  function Stoi(s: string): Option<nat> {
    if s != "" && AllDigits(s) && DigitsValue(s) <= INT_MAX then Some(DigitsValue(s)) else None
  }

  // ----- what is parsed -----

  predicate Starts(ts: Tokens, kind: TokenKind) {
    ts != [] && ts[0].kind == kind
  }

  predicate StartsWithAny(ts: Tokens, kinds: seq<TokenKind>) {
    ts != [] && ts[0].kind in kinds
  }

  /** A list that begins with the elements parsed so far. */
  function Prefixed<T>(done: seq<T>, more: Parsed<seq<T>>): (r: Parsed<seq<T>>)
    ensures r.Failed? <==> more.Failed?
  {
    if more.Parsed? then Parsed(done + more.value, more.rest) else Failed
  }

  /** All binary operators have the same precedence and associate to the right. */
  function BinaryExpr(ts: Tokens): (r: Parsed<Expr>)
    ensures r.Parsed? ==> |r.rest| < |ts|
    decreases |ts|, 3
  {
    match UnaryExpr(ts)
    case Failed => Failed
    case Parsed(e, rest) =>
      if StartsWithAny(rest, BINARY_OPERATORS) then
        match BinaryExpr(rest[1..])
        case Failed => Failed
        case Parsed(rhs, left) => Parsed(Binary(e, rest[0].kind, rhs), left)
      else Parsed(e, rest)
  }

  function UnaryExpr(ts: Tokens): (r: Parsed<Expr>)
    ensures r.Parsed? ==> |r.rest| < |ts|
    decreases |ts|, 2
  {
    if StartsWithAny(ts, UNARY_OPERATORS) then
      match UnaryExpr(ts[1..])
      case Failed => Failed
      case Parsed(e, rest) => Parsed(Unary(ts[0].kind, e), rest)
    else PrimaryExpr(ts)
  }

  function PrimaryExpr(ts: Tokens): (r: Parsed<Expr>)
    ensures r.Parsed? ==> |r.rest| < |ts|
    decreases |ts|, 1
  {
    if ts == [] then Failed
    else
      var token, rest := ts[0], ts[1..];
      match token.kind
      case Text => Parsed(Literal(token.literal), rest)
      case Identifier => Parsed(Name(token.literal), rest)
      case Integer => if Stoi(token.literal).Some? then Parsed(Number(Stoi(token.literal).value), rest) else Failed
      case Real => Parsed(RealNumber(token.literal), rest)
      case LeftParen => Group(rest)
      case SelectWord =>
        (match SelectExpr(rest)
         case Failed => Failed
         case Parsed(e, left) => Parsed(Grouping(e), left))
      case _ => Failed
  }

  /** What follows an opening parenthesis: a selection or an expression, and the closing one. */
  function Group(ts: Tokens): (r: Parsed<Expr>)
    ensures r.Parsed? ==> |r.rest| < |ts|
    decreases |ts|, 6
  {
    match if Starts(ts, SelectWord) then SelectExpr(ts[1..]) else BinaryExpr(ts)
    case Failed => Failed
    case Parsed(e, rest) => if Starts(rest, RightParen) then Parsed(Grouping(e), rest[1..]) else Failed
  }

  /** Expressions separated by commas. */
  function ExprList(ts: Tokens): (r: Parsed<seq<Expr>>)
    ensures r.Parsed? ==> |r.rest| < |ts|
    decreases |ts|, 4
  {
    match BinaryExpr(ts)
    case Failed => Failed
    case Parsed(e, rest) =>
      if Starts(rest, Comma) then Prefixed([e], ExprList(rest[1..])) else Parsed([e], rest)
  }

  /** What is selected: a list in parentheses, or one expression that does not begin with one. */
  function Selected(ts: Tokens): (r: Parsed<seq<Expr>>)
    ensures r.Parsed? ==> |r.rest| < |ts|
    decreases |ts|, 4
  {
    if Starts(ts, LeftParen) then
      match ExprList(ts[1..])
      case Failed => Failed
      case Parsed(inner, rest) => if Starts(rest, RightParen) then Parsed(inner, rest[1..]) else Failed
    else
      match BinaryExpr(ts)
      case Failed => Failed
      case Parsed(e, rest) => Parsed([e], rest)
  }

  function SelectExpr(ts: Tokens): (r: Parsed<Expr>)
    ensures r.Parsed? ==> |r.rest| < |ts|
    decreases |ts|, 5
  {
    match Selected(ts)
    case Failed => Failed
    case Parsed(inner, rest) =>
      if Starts(rest, FromWord) then
        if Starts(rest[1..], Identifier) then Parsed(Select(inner, rest[1].literal), rest[2..]) else Failed
      else Parsed(Select(inner, ""), rest)
  }

  /** A column's name and type; NOT NULL sets the flag that is called canBeNull. */
  function ColumnDef(ts: Tokens): (r: Parsed<TblColumn>)
    ensures r.Parsed? ==> |r.rest| < |ts|
  {
    if !Starts(ts, Identifier) || !Starts(ts[1..], Identifier) then Failed
    else if !Starts(ts[2..], NotWord) then Parsed(TblColumn(ts[0].literal, ts[1].literal, false), ts[2..])
    else if !Starts(ts[3..], NullWord) then Failed
    else Parsed(TblColumn(ts[0].literal, ts[1].literal, true), ts[4..])
  }

  /** The columns of a new table.  A list that breaks off where a column should come is accepted. */
  function ColumnDefs(ts: Tokens): (r: Parsed<seq<TblColumn>>)
    ensures r.Parsed? ==> |r.rest| <= |ts|
    decreases |ts|
  {
    if ts == [] then Parsed([], [])
    else
      match ColumnDef(ts)
      case Failed => Failed
      case Parsed(column, rest) =>
        if Starts(rest, Comma) then Prefixed([column], ColumnDefs(rest[1..]))
        else if Starts(rest, RightParen) then Parsed([column], rest[1..])
        else Failed
  }

  function ColumnNames(ts: Tokens): (r: Parsed<seq<string>>)
    ensures r.Parsed? ==> |r.rest| <= |ts|
    decreases |ts|
  {
    if ts == [] then Parsed([], [])
    else if !Starts(ts, Identifier) then Failed
    else if Starts(ts[1..], Comma) then Prefixed([ts[0].literal], ColumnNames(ts[2..]))
    else if Starts(ts[1..], RightParen) then Parsed([ts[0].literal], ts[2..])
    else Failed
  }

  function GivenValue(token: Token): Option<Given> {
    match token.kind
    case Text => Some(GivenText(token.literal))
    case Integer => if Stoi(token.literal).Some? then Some(GivenNumber(Stoi(token.literal).value)) else None
    case Real => Some(GivenReal(token.literal))
    case _ => None
  }

  function GivenValues(ts: Tokens): (r: Parsed<seq<Given>>)
    ensures r.Parsed? ==> |r.rest| <= |ts|
    decreases |ts|
  {
    if ts == [] then Parsed([], [])
    else if GivenValue(ts[0]).None? then Failed
    else if Starts(ts[1..], Comma) then Prefixed([GivenValue(ts[0]).value], GivenValues(ts[2..]))
    else if Starts(ts[1..], RightParen) then Parsed([GivenValue(ts[0]).value], ts[2..])
    else Failed
  }

  function CreateExpr(ts: Tokens): Parsed<Statement> {
    if !Starts(ts, TableWord) || !Starts(ts[1..], Identifier) || !Starts(ts[2..], LeftParen) then Failed
    else
      match ColumnDefs(ts[3..])
      case Failed => Failed
      case Parsed(tblColumns, rest) => Parsed(Creation(ts[1].literal, tblColumns), rest)
  }

  function InsertExpr(ts: Tokens): Parsed<Statement> {
    if !Starts(ts, IntoWord) || !Starts(ts[1..], Identifier) || !Starts(ts[2..], LeftParen) then Failed
    else
      match ColumnNames(ts[3..])
      case Failed => Failed
      case Parsed(columns, rest) =>
        if !Starts(rest, ValuesWord) || !Starts(rest[1..], LeftParen) then Failed
        else
          match GivenValues(rest[2..])
          case Failed => Failed
          case Parsed(values, left) => Parsed(Insertion(ts[1].literal, columns, values), left)
  }

  /** A statement; tokens behind it are ignored. */
  function Parse(ts: Tokens): Parsed<Statement> {
    if Starts(ts, SelectWord) then
      match SelectExpr(ts[1..])
      case Failed => Failed
      case Parsed(e, rest) => Parsed(Selection(e), rest)
    else if Starts(ts, CreateWord) then CreateExpr(ts[1..])
    else if Starts(ts, InsertWord) then InsertExpr(ts[1..])
    else Failed
  }

  // ----- the parser -----

  class Cursor {
    const tokens: Tokens
    var cursor: nat

    ghost predicate Valid()
      reads this
    {
      cursor <= |tokens|
    }

    ghost function Left(): Tokens
      requires Valid()
      reads this
    {
      tokens[cursor..]
    }

    constructor (tokens: Tokens)
      ensures Valid() && this.tokens == tokens && cursor == 0
    {
      this.tokens := tokens;
      cursor := 0;
    }

    /** The outcome of a step of the parser, against what should be parsed from `before`. */
    ghost predicate Follows<T>(r: Outcome<T>, expected: Parsed<T>)
      requires Valid()
      reads this
    {
      match r
      case Thrown => expected.Failed?
      case Returned(value) => expected == Parsed(value, Left())
    }

    predicate IsDone()
      reads this
    {
      |tokens| <= cursor
    }

    function Previous(): Token
      requires 0 < cursor <= |tokens|
      reads this
    {
      tokens[cursor - 1]
    }

    method Advance()
      requires Valid() && !IsDone()
      modifies this
      ensures Valid() && cursor == old(cursor) + 1
    {
      cursor := cursor + 1;
    }

    predicate Check(kind: TokenKind)
      reads this
    {
      !IsDone() && tokens[cursor].kind == kind
    }

    method Match(kinds: seq<TokenKind>) returns (ok: bool)
      requires Valid()
      modifies this
      ensures Valid() && ok == StartsWithAny(old(Left()), kinds)
      ensures cursor == old(cursor) + if ok then 1 else 0
    {
      for i := 0 to |kinds|
        invariant cursor == old(cursor) && forall j :: 0 <= j < i ==> !Check(kinds[j])
      {
        if Check(kinds[i]) {
          Advance();
          return true;
        }
      }
      return false;
    }

    /** False stands for the exception. */
    method Consume(kind: TokenKind) returns (ok: bool)
      requires Valid()
      modifies this
      ensures Valid() && ok == Starts(old(Left()), kind)
      ensures cursor == old(cursor) + if ok then 1 else 0
    {
      ok := Match([kind]);
    }

    /** The literal of the identifier that must come next. */
    method ConsumeName() returns (r: Outcome<string>)
      requires Valid()
      modifies this
      ensures Valid() && (r.Returned? <==> Starts(old(Left()), Identifier))
      ensures cursor == old(cursor) + if r.Returned? then 1 else 0
      ensures r.Returned? ==> r.value == old(Left())[0].literal
    {
      var ok := Consume(Identifier);
      return if ok then Returned(Previous().literal) else Thrown;
    }

    method ParseBinary() returns (r: Outcome<Expr>)
      requires Valid()
      modifies this
      ensures Valid() && cursor >= old(cursor) && Follows(r, BinaryExpr(old(Left())))
      decreases |tokens| - cursor, 3
    {
      hide UnaryExpr;
      var e :- ParseUnary();
      var isOperator := Match(BINARY_OPERATORS);
      if isOperator {
        var op := Previous().kind;
        var rhs :- ParseBinary();
        return Returned(Binary(e, op, rhs));
      }
      return Returned(e);
    }

    method ParseUnary() returns (r: Outcome<Expr>)
      requires Valid()
      modifies this
      ensures Valid() && cursor >= old(cursor) && Follows(r, UnaryExpr(old(Left())))
      decreases |tokens| - cursor, 2
    {
      hide PrimaryExpr;
      var isOperator := Match(UNARY_OPERATORS);
      if isOperator {
        var op := Previous().kind;
        var operand :- ParseUnary();
        return Returned(Unary(op, operand));
      }
      r := ParsePrimary();
    }

    method ParsePrimary() returns (r: Outcome<Expr>)
      requires Valid()
      modifies this
      ensures Valid() && cursor >= old(cursor) && Follows(r, PrimaryExpr(old(Left())))
      decreases |tokens| - cursor, 1
    {
      hide SelectExpr, Group, Stoi;
      if IsDone() { return Thrown; }
      var token := tokens[cursor];
      match token.kind {
        case Text =>
          Advance();
          return Returned(Literal(token.literal));
        case Identifier =>
          Advance();
          return Returned(Name(token.literal));
        case Integer =>
          Advance();
          return if Stoi(token.literal).Some? then Returned(Number(Stoi(token.literal).value)) else Thrown;
        case Real =>
          Advance();
          return Returned(RealNumber(token.literal));
        case LeftParen =>
          Advance();
          r := ParseGroup();
          return;
        case SelectWord =>
          Advance();
          var e :- ParseSelect();
          return Returned(Grouping(e));
        case _ =>
          return Thrown;
      }
    }

    method ParseGroup() returns (r: Outcome<Expr>)
      requires Valid()
      modifies this
      ensures Valid() && cursor >= old(cursor) && Follows(r, Group(old(Left())))
      decreases |tokens| - cursor, 6
    {
      hide SelectExpr, BinaryExpr;
      var isSelect := Match([SelectWord]);
      var e: Expr;
      if isSelect { e :- ParseSelect(); } else { e :- ParseBinary(); }
      var closed := Consume(RightParen);
      return if closed then Returned(Grouping(e)) else Thrown;
    }

    method ParseSelect() returns (r: Outcome<Expr>)
      requires Valid()
      modifies this
      ensures Valid() && cursor >= old(cursor) && Follows(r, SelectExpr(old(Left())))
      decreases |tokens| - cursor, 5
    {
      hide Selected;
      var inner :- ParseSelected();
      var hasTable := Match([FromWord]);
      if hasTable {
        var tblName :- ConsumeName();
        return Returned(Select(inner, tblName));
      }
      return Returned(Select(inner, ""));
    }

    method ParseSelected() returns (r: Outcome<seq<Expr>>)
      requires Valid()
      modifies this
      ensures Valid() && cursor >= old(cursor) && Follows(r, Selected(old(Left())))
      decreases |tokens| - cursor, 4
    {
      hide BinaryExpr, ExprList;
      var isList := Match([LeftParen]);
      if isList {
        var inner :- ParseList();
        var closed := Consume(RightParen);
        return if closed then Returned(inner) else Thrown;
      }
      var e :- ParseBinary();
      return Returned([e]);
    }

    method ParseList() returns (r: Outcome<seq<Expr>>)
      requires Valid()
      modifies this
      ensures Valid() && cursor >= old(cursor) && Follows(r, ExprList(old(Left())))
      decreases |tokens| - cursor, 4
    {
      hide BinaryExpr;
      ghost var before := Left();
      var e :- ParseBinary();
      ListGoesOn(before, e, Left());
      var inner := [e];
      var more := Match([Comma]);
      while more
        invariant Valid() && cursor > old(cursor)
        invariant ExprList(before) == Prefixed(inner, if more then ExprList(Left()) else Parsed([], Left()))
        decreases |tokens| - cursor, more
      {
        ghost var done := inner;
        ghost var left := Left();
        e :- ParseBinary();
        ListGoesOn(left, e, Left());
        inner := inner + [e];
        more := Match([Comma]);
        PrefixedOneMore(done, e, if more then ExprList(Left()) else Parsed([], Left()));
      }
      PrefixedEnds(inner, Left());
      return Returned(inner);
    }

    method ParseColumnDef() returns (r: Outcome<TblColumn>)
      requires Valid()
      modifies this
      ensures Valid() && cursor >= old(cursor) && Follows(r, ColumnDef(old(Left())))
    {
      var name :- ConsumeName();
      var typeName :- ConsumeName();
      var canBeNull := false;
      var isMarked := Match([NotWord]);
      if isMarked {
        var ok := Consume(NullWord);
        if !ok { return Thrown; }
        canBeNull := true;
      }
      return Returned(TblColumn(name, typeName, canBeNull));
    }

    method ParseColumnDefs() returns (r: Outcome<seq<TblColumn>>)
      requires Valid()
      modifies this
      ensures Valid() && cursor >= old(cursor) && Follows(r, ColumnDefs(old(Left())))
    {
      hide ColumnDef, Prefixed;
      ghost var before := Left();
      var columns: seq<TblColumn> := [];
      PrefixedNone(ColumnDefs(before));
      while !IsDone()
        invariant Valid() && cursor >= old(cursor)
        invariant ColumnDefs(before) == Prefixed(columns, ColumnDefs(Left()))
        decreases |tokens| - cursor
      {
        ghost var done := columns;
        var column :- ParseColumnDef();
        columns := columns + [column];
        var again := Match([Comma]);
        if again {
          PrefixedOneMore(done, column, ColumnDefs(Left()));
          continue;
        }
        var ends := Match([RightParen]);
        PrefixedLast(done, column, Left());
        return if ends then Returned(columns) else Thrown;
      }
      PrefixedEnds(columns, Left());
      return Returned(columns);
    }

    method ParseColumnNames() returns (r: Outcome<seq<string>>)
      requires Valid()
      modifies this
      ensures Valid() && cursor >= old(cursor) && Follows(r, ColumnNames(old(Left())))
    {
      hide Prefixed;
      ghost var before := Left();
      var columns: seq<string> := [];
      PrefixedNone(ColumnNames(before));
      while !IsDone()
        invariant Valid() && cursor >= old(cursor)
        invariant ColumnNames(before) == Prefixed(columns, ColumnNames(Left()))
        decreases |tokens| - cursor
      {
        ghost var done := columns;
        ghost var left := Left();
        var column :- ConsumeName();
        assert Left() == left[1..];
        columns := columns + [column];
        var again := Match([Comma]);
        if again {
          PrefixedOneMore(done, column, ColumnNames(Left()));
          continue;
        }
        var ends := Match([RightParen]);
        PrefixedLast(done, column, Left());
        return if ends then Returned(columns) else Thrown;
      }
      PrefixedEnds(columns, Left());
      return Returned(columns);
    }

    method ParseValues() returns (r: Outcome<seq<Given>>)
      requires Valid()
      modifies this
      ensures Valid() && cursor >= old(cursor) && Follows(r, GivenValues(old(Left())))
    {
      hide GivenValue, Prefixed;
      ghost var before := Left();
      var values: seq<Given> := [];
      PrefixedNone(GivenValues(before));
      while !IsDone()
        invariant Valid() && cursor >= old(cursor)
        invariant GivenValues(before) == Prefixed(values, GivenValues(Left()))
        decreases |tokens| - cursor
      {
        ghost var done := values;
        var value := GivenValue(tokens[cursor]);
        if value.None? { return Thrown; }
        Advance();
        values := values + [value.value];
        var again := Match([Comma]);
        if again {
          PrefixedOneMore(done, value.value, GivenValues(Left()));
          continue;
        }
        var ends := Match([RightParen]);
        PrefixedLast(done, value.value, Left());
        return if ends then Returned(values) else Thrown;
      }
      PrefixedEnds(values, Left());
      return Returned(values);
    }

    method ParseCreate() returns (r: Outcome<Statement>)
      requires Valid()
      modifies this
      ensures Valid() && cursor >= old(cursor) && Follows(r, CreateExpr(old(Left())))
    {
      hide ColumnDefs;
      var ok := Consume(TableWord);
      if !ok { return Thrown; }
      var tblName :- ConsumeName();
      ok := Consume(LeftParen);
      if !ok { return Thrown; }
      var tblColumns :- ParseColumnDefs();
      return Returned(Creation(tblName, tblColumns));
    }

    method ParseInsert() returns (r: Outcome<Statement>)
      requires Valid()
      modifies this
      ensures Valid() && cursor >= old(cursor) && Follows(r, InsertExpr(old(Left())))
    {
      hide ColumnNames, GivenValues;
      var ok := Consume(IntoWord);
      if !ok { return Thrown; }
      var tblName :- ConsumeName();
      ok := Consume(LeftParen);
      if !ok { return Thrown; }
      var columns :- ParseColumnNames();
      ok := Consume(ValuesWord);
      if !ok { return Thrown; }
      ok := Consume(LeftParen);
      if !ok { return Thrown; }
      var values :- ParseValues();
      return Returned(Insertion(tblName, columns, values));
    }

    method ParseStatement() returns (r: Outcome<Statement>)
      requires Valid()
      modifies this
      ensures Valid() && cursor >= old(cursor) && Follows(r, Parse(old(Left())))
    {
      hide CreateExpr, InsertExpr, SelectExpr;
      var isSelect := Match([SelectWord]);
      if isSelect {
        var e :- ParseSelect();
        return Returned(Selection(e));
      }
      var isCreate := Match([CreateWord]);
      if isCreate {
        r := ParseCreate();
        return;
      }
      var isInsert := Match([InsertWord]);
      if isInsert {
        r := ParseInsert();
        return;
      }
      return Thrown;
    }
  }

  lemma PrefixedLast<T>(done: seq<T>, x: T, rest: Tokens)
    ensures Prefixed(done, Parsed([x], rest)) == Parsed(done + [x], rest)
  {
  }

  lemma PrefixedNone<T>(more: Parsed<seq<T>>)
    ensures Prefixed([], more) == more
  {
    if more.Parsed? { assert [] + more.value == more.value; }
  }

  lemma ListGoesOn(ts: Tokens, e: Expr, rest: Tokens)
    requires BinaryExpr(ts) == Parsed(e, rest)
    ensures ExprList(ts) == Prefixed([e], if Starts(rest, Comma) then ExprList(rest[1..]) else Parsed([], rest))
  {
    assert [e] + [] == [e];
  }

  lemma PrefixedOneMore<T>(done: seq<T>, x: T, more: Parsed<seq<T>>)
    ensures Prefixed(done + [x], more) == Prefixed(done, Prefixed([x], more))
  {
    if more.Parsed? { assert done + [x] + more.value == done + ([x] + more.value); }
  }

  lemma PrefixedEnds<T>(done: seq<T>, rest: Tokens)
    ensures Prefixed(done, Parsed([], rest)) == Parsed(done, rest)
  {
    assert done + [] == done;
  }
}
