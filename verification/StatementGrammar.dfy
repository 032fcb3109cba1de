/**
 The language of the parser as a grammar, which relates a statement to the tokens that stand for it and
 does not say how they are found; and the texts of a list of tokens.
 */
module StatementGrammar {
  import opened Pages
  import opened Lexer
  import opened Parser
  import opened StatementRoundTrip

  // ----- the grammar -----

  ghost predicate Derives(e: Expr, ts: Tokens)
    decreases e, 0
  {
    match e
    case Literal(text) => ts == [Token(Text, text)]
    case Name(name) => ts == [Token(Identifier, name)]
    case RealNumber(text) => ts == [Token(Real, text)]
    case Number(n) => |ts| == 1 && ts[0].kind == Integer && Denotes(ts[0].literal, n)
    case Unary(op, operand) =>
      && ts != [] && ts[0].kind == op && op in {Subtract, Bang}
      && !operand.Binary? && !operand.Select? && Derives(operand, ts[1..])
    case Binary(lhs, op, rhs) =>
      && !lhs.Binary? && !lhs.Select? && !rhs.Select? && op in {Add, Subtract, Divide, Star}
      && exists k :: 0 <= k < |ts| && ts[k].kind == op && Derives(lhs, ts[..k]) && Derives(rhs, ts[k + 1..])
    case Grouping(inner) =>
      || (Enclosed(ts) && Derives(inner, ts[1..|ts| - 1]))
      || (inner.Select? && Derives(inner, ts))
    case Select(inner, tblName) =>
      && Starts(ts, SelectWord)
      && exists k :: 1 <= k <= |ts| && DerivesSelected(inner, ts[1..k]) && IsFrom(tblName, ts[k..])
  }

  /** A list in parentheses, or one expression. */
  ghost predicate DerivesSelected(es: seq<Expr>, ts: Tokens)
    decreases es, 1
  {
    || (Enclosed(ts) && DerivesList(es, ts[1..|ts| - 1]))
    || (|es| == 1 && !es[0].Select? && Derives(es[0], ts))
  }

  ghost predicate DerivesList(es: seq<Expr>, ts: Tokens)
    decreases es, 0
  {
    && es != [] && !es[0].Select?
    && if |es| == 1 then Derives(es[0], ts)
       else
         exists k ::
           0 <= k < |ts| && ts[k].kind == Comma && Derives(es[0], ts[..k]) && DerivesList(es[1..], ts[k + 1..])
  }

  predicate Enclosed(ts: Tokens) {
    |ts| >= 2 && ts[0].kind == LeftParen && ts[|ts| - 1].kind == RightParen
  }

  predicate IsFrom(tblName: string, ts: Tokens) {
    || (tblName == "" && ts == [])
    || (|ts| == 2 && ts[0].kind == FromWord && ts[1] == Token(Identifier, tblName))
  }

  predicate Denotes(literal: string, n: nat) {
    literal != "" && AllDigits(literal) && DigitsValue(literal) == n && n <= 2147483647
  }

  /** A list ends with a closing parenthesis; where the tokens end it may also break off behind a comma. */
  predicate IsColumnList(columns: seq<TblColumn>, ts: Tokens, atEnd: bool) {
    if columns == [] then ts == [] && atEnd
    else
      var n := if columns[0].canBeNull then 4 else 2;
      && |ts| > n && IsColumn(columns[0], ts[..n])
      && if ts[n].kind == Comma then IsColumnList(columns[1..], ts[n + 1..], atEnd)
         else ts[n].kind == RightParen && |columns| == 1 && |ts| == n + 1
  }

  /** The flag called canBeNull stands for NOT NULL. */
  predicate IsColumn(column: TblColumn, ts: Tokens) {
    && |ts| >= 2 && ts[0] == Token(Identifier, column.name) && ts[1] == Token(Identifier, column.typeName)
    && if column.canBeNull then |ts| == 4 && ts[2].kind == NotWord && ts[3].kind == NullWord else |ts| == 2
  }

  predicate IsNameList(names: seq<string>, ts: Tokens, atEnd: bool) {
    if names == [] then ts == [] && atEnd
    else
      && |ts| >= 2 && ts[0] == Token(Identifier, names[0])
      && if ts[1].kind == Comma then IsNameList(names[1..], ts[2..], atEnd)
         else ts[1].kind == RightParen && |names| == 1 && |ts| == 2
  }

  predicate IsValueList(values: seq<Given>, ts: Tokens, atEnd: bool) {
    if values == [] then ts == [] && atEnd
    else
      && |ts| >= 2 && IsValue(values[0], ts[0])
      && if ts[1].kind == Comma then IsValueList(values[1..], ts[2..], atEnd)
         else ts[1].kind == RightParen && |values| == 1 && |ts| == 2
  }

  predicate IsValue(v: Given, token: Token) {
    match v
    case GivenText(text) => token == Token(Text, text)
    case GivenNumber(n) => token.kind == Integer && Denotes(token.literal, n)
    case GivenReal(text) => token == Token(Real, text)
  }

  /** `atEnd`: no token is left behind the statement. */
  ghost predicate DerivesStatement(s: Statement, ts: Tokens, atEnd: bool) {
    match s
    case Selection(e) => e.Select? && Derives(e, ts)
    case Creation(tblName, columns) =>
      && |ts| >= 4 && ts[0].kind == CreateWord && ts[1].kind == TableWord
      && ts[2] == Token(Identifier, tblName) && ts[3].kind == LeftParen
      && IsColumnList(columns, ts[4..], atEnd)
    case Insertion(tblName, columns, values) =>
      var n := 4 + 2 * |columns|;
      && columns != [] && |ts| >= n + 2 && ts[0].kind == InsertWord && ts[1].kind == IntoWord
      && ts[2] == Token(Identifier, tblName) && ts[3].kind == LeftParen
      && IsNameList(columns, ts[4..n], false)
      && ts[n].kind == ValuesWord && ts[n + 1].kind == LeftParen
      && IsValueList(values, ts[n + 2..], atEnd)
  }

  // ----- what the parser accepts is in the grammar -----

  predicate Behind(ts: Tokens, rest: Tokens) {
    |rest| <= |ts| && rest == ts[|ts| - |rest|..]
  }

  function Used(ts: Tokens, rest: Tokens): Tokens
    requires Behind(ts, rest)
  {
    ts[..|ts| - |rest|]
  }

  lemma UsedOnward(ts: Tokens, n: nat, rest: Tokens)
    requires n <= |ts| && Behind(ts[n..], rest)
    ensures Behind(ts, rest) && Used(ts, rest)[n..] == Used(ts[n..], rest) && Used(ts, rest)[..n] == ts[..n]
  {
  }

  lemma {:induction false} BinaryDerives(ts: Tokens)
    requires BinaryExpr(ts).Parsed?
    ensures var r := BinaryExpr(ts); !r.value.Select? && Behind(ts, r.rest) && Derives(r.value, Used(ts, r.rest))
    decreases |ts|, 3
  {
    hide UnaryExpr;
    UnaryDerives(ts);
    var first := UnaryExpr(ts);
    if StartsWithAny(first.rest, BINARY_OPERATORS) {
      BinaryDerives(first.rest[1..]);
      var second := BinaryExpr(first.rest[1..]);
      var k := |ts| - |first.rest|;
      assert first.rest[1..] == ts[k + 1..];
      UsedOnward(ts, k + 1, second.rest);
      var used := Used(ts, second.rest);
      assert used[k].kind == first.rest[0].kind && used[..k] == Used(ts, first.rest);
      assert Derives(first.value, used[..k]) && Derives(second.value, used[k + 1..]);
    }
  }

  lemma {:induction false} UnaryDerives(ts: Tokens)
    requires UnaryExpr(ts).Parsed?
    ensures var r := UnaryExpr(ts);
            !r.value.Binary? && !r.value.Select? && Behind(ts, r.rest) && Derives(r.value, Used(ts, r.rest))
    decreases |ts|, 2
  {
    hide PrimaryExpr;
    if StartsWithAny(ts, UNARY_OPERATORS) {
      UnaryDerives(ts[1..]);
      UsedOnward(ts, 1, UnaryExpr(ts[1..]).rest);
    } else {
      PrimaryDerives(ts);
    }
  }

  lemma {:induction false} PrimaryDerives(ts: Tokens)
    requires PrimaryExpr(ts).Parsed?
    ensures var r := PrimaryExpr(ts);
            !r.value.Binary? && !r.value.Select? && Behind(ts, r.rest) && Derives(r.value, Used(ts, r.rest))
    decreases |ts|, 1
  {
    hide Group, SelectExpr;
    var rest := PrimaryExpr(ts).rest;
    if ts[0].kind.LeftParen? {
      GroupDerives(ts);
    } else if ts[0].kind.SelectWord? {
      SelectDerives(ts);
    } else {
      assert Used(ts, rest) == [ts[0]];
    }
  }

  lemma EnclosedUsed(ts: Tokens, rest: Tokens)
    requires Starts(ts, LeftParen) && Behind(ts[1..], rest) && Starts(rest, RightParen)
    ensures Behind(ts, rest[1..])
    ensures var used := Used(ts, rest[1..]);
            Enclosed(used) && used[1..|used| - 1] == Used(ts[1..], rest)
  {
  }

  lemma {:induction false} GroupDerives(ts: Tokens)
    requires Starts(ts, LeftParen) && Group(ts[1..]).Parsed?
    ensures var r := Group(ts[1..]); r.value.Grouping? && Behind(ts, r.rest) && Derives(r.value, Used(ts, r.rest))
    decreases |ts|, 0
  {
    hide BinaryExpr, SelectExpr, Behind, Used, Enclosed;
    var inside := ts[1..];
    var inner := if Starts(inside, SelectWord) then SelectExpr(inside[1..]) else BinaryExpr(inside);
    if Starts(inside, SelectWord) { SelectDerives(inside); } else { BinaryDerives(inside); }
    EnclosedUsed(ts, inner.rest);
  }

  lemma {:induction false} SelectDerives(ts: Tokens)
    requires Starts(ts, SelectWord) && SelectExpr(ts[1..]).Parsed?
    ensures var r := SelectExpr(ts[1..]); r.value.Select? && Behind(ts, r.rest) && Derives(r.value, Used(ts, r.rest))
    decreases |ts|, 0
  {
    hide Selected, Derives, DerivesSelected;
    var r, selected := SelectExpr(ts[1..]), Selected(ts[1..]);
    SelectedDerives(ts[1..]);
    UsedOnward(ts, 1, selected.rest);
    var k := |ts| - |selected.rest|;
    var used := Used(ts, r.rest);
    assert used[1..k] == Used(ts[1..], selected.rest);
    SelectAssembled(selected.value, r.value.tblName, used, k);
  }

  lemma SelectAssembled(inner: seq<Expr>, tblName: string, ts: Tokens, k: nat)
    requires Starts(ts, SelectWord) && 1 <= k <= |ts| && DerivesSelected(inner, ts[1..k]) && IsFrom(tblName, ts[k..])
    ensures Derives(Select(inner, tblName), ts)
  {
    hide DerivesSelected;
  }

  lemma {:induction false} SelectedDerives(ts: Tokens)
    requires Selected(ts).Parsed?
    ensures var r := Selected(ts); Behind(ts, r.rest) && DerivesSelected(r.value, Used(ts, r.rest))
    decreases |ts|, 4
  {
    hide BinaryExpr, ExprList, Derives, DerivesList;
    var r := Selected(ts);
    if Starts(ts, LeftParen) {
      ListDerives(ts[1..]);
      var list := ExprList(ts[1..]);
      EnclosedUsed(ts, list.rest);
    } else {
      BinaryDerives(ts);
    }
  }

  lemma {:induction false} ListDerives(ts: Tokens)
    requires ExprList(ts).Parsed?
    ensures var r := ExprList(ts); Behind(ts, r.rest) && DerivesList(r.value, Used(ts, r.rest))
    decreases |ts|, 4
  {
    hide BinaryExpr, Derives;
    BinaryDerives(ts);
    var first := BinaryExpr(ts);
    if Starts(first.rest, Comma) {
      ListDerives(first.rest[1..]);
      var more := ExprList(first.rest[1..]);
      var k := |ts| - |first.rest|;
      assert first.rest[1..] == ts[k + 1..];
      UsedOnward(ts, k + 1, more.rest);
      var used := Used(ts, more.rest);
      assert used[k].kind == Comma && used[..k] == Used(ts, first.rest);
      assert ([first.value] + more.value)[1..] == more.value;
      assert Derives(first.value, used[..k]) && DerivesList(more.value, used[k + 1..]);
    }
  }

  lemma {:induction false} ColumnsDerive(ts: Tokens)
    requires ColumnDefs(ts).Parsed?
    ensures var r := ColumnDefs(ts); Behind(ts, r.rest) && IsColumnList(r.value, Used(ts, r.rest), r.rest == [])
  {
    if ts != [] {
      var first := ColumnDef(ts);
      var n := |ts| - |first.rest|;
      var r := ColumnDefs(ts);
      assert n == (if first.value.canBeNull then 4 else 2) && first.rest == ts[n..] && IsColumn(first.value, ts[..n]);
      if Starts(first.rest, Comma) {
        ColumnsDerive(first.rest[1..]);
        assert first.rest[1..] == ts[n + 1..];
        UsedOnward(ts, n + 1, r.rest);
        assert r.value[1..] == ColumnDefs(first.rest[1..]).value;
      }
      assert Used(ts, r.rest)[..n] == ts[..n];
    }
  }

  lemma {:induction false} NamesDerive(ts: Tokens)
    requires ColumnNames(ts).Parsed?
    ensures var r := ColumnNames(ts); Behind(ts, r.rest) && IsNameList(r.value, Used(ts, r.rest), r.rest == [])
  {
    if ts != [] && Starts(ts[1..], Comma) {
      var r := ColumnNames(ts);
      NamesDerive(ts[2..]);
      UsedOnward(ts, 2, r.rest);
      assert r.value[1..] == ColumnNames(ts[2..]).value;
    }
  }

  lemma {:induction false} ValuesDerive(ts: Tokens)
    requires GivenValues(ts).Parsed?
    ensures var r := GivenValues(ts); Behind(ts, r.rest) && IsValueList(r.value, Used(ts, r.rest), r.rest == [])
  {
    if ts != [] && Starts(ts[1..], Comma) {
      var r := GivenValues(ts);
      ValuesDerive(ts[2..]);
      UsedOnward(ts, 2, r.rest);
      assert r.value[1..] == GivenValues(ts[2..]).value;
    }
  }

  lemma {:induction false} NameListLength(names: seq<string>, ts: Tokens)
    requires IsNameList(names, ts, false)
    ensures names != [] && |ts| == 2 * |names|
  {
    if names != [] && |ts| > 2 { NameListLength(names[1..], ts[2..]); }
  }

  /** Whatever the parser accepts, the tokens it used up stand for the statement it gave. */
  lemma ParsedDerives(ts: Tokens)
    requires Parse(ts).Parsed?
    ensures var r := Parse(ts); Behind(ts, r.rest) && DerivesStatement(r.value, Used(ts, r.rest), r.rest == [])
  {
    hide SelectExpr, CreateExpr, InsertExpr;
    if Starts(ts, SelectWord) {
      SelectDerives(ts);
    } else if Starts(ts, CreateWord) {
      CreationDerives(ts);
    } else {
      InsertionDerives(ts);
    }
  }

  lemma CreationDerives(ts: Tokens)
    requires Starts(ts, CreateWord) && CreateExpr(ts[1..]).Parsed?
    ensures var r := CreateExpr(ts[1..]);
            Behind(ts, r.rest) && DerivesStatement(r.value, Used(ts, r.rest), r.rest == [])
  {
    hide ColumnDefs, IsColumnList;
    assert ts[1..][3..] == ts[4..];
    ColumnsDerive(ts[4..]);
    UsedOnward(ts, 4, ColumnDefs(ts[4..]).rest);
  }

  /** The pieces of an insertion, and where they stand. */
  lemma InsertionPieces(ts: Tokens) returns (names: seq<string>, n: nat)
    requires Starts(ts, InsertWord) && InsertExpr(ts[1..]).Parsed?
    ensures names != [] && n == 4 + 2 * |names| && |ts| >= n + 2
    ensures ts[1].kind == IntoWord && ts[2].kind == Identifier && ts[3].kind == LeftParen
    ensures IsNameList(names, ts[4..n], false) && ts[n].kind == ValuesWord && ts[n + 1].kind == LeftParen
    ensures GivenValues(ts[n + 2..]).Parsed?
    ensures var values := GivenValues(ts[n + 2..]);
            InsertExpr(ts[1..]) == Parsed(Insertion(ts[2].literal, names, values.value), values.rest)
  {
    hide ColumnNames, GivenValues, IsNameList;
    assert ts[1..][3..] == ts[4..];
    var r := ColumnNames(ts[4..]);
    NamesDerive(ts[4..]);
    NameListLength(r.value, Used(ts[4..], r.rest));
    names, n := r.value, 4 + 2 * |r.value|;
    assert r.rest == ts[n..] && r.rest[2..] == ts[n + 2..] && Used(ts[4..], r.rest) == ts[4..n];
  }

  lemma InsertionDerives(ts: Tokens)
    requires Starts(ts, InsertWord) && InsertExpr(ts[1..]).Parsed?
    ensures var r := InsertExpr(ts[1..]);
            Behind(ts, r.rest) && DerivesStatement(r.value, Used(ts, r.rest), r.rest == [])
  {
    hide InsertExpr, GivenValues, IsNameList, IsValueList;
    var names, n := InsertionPieces(ts);
    ValuesDerive(ts[n + 2..]);
    var rest := GivenValues(ts[n + 2..]).rest;
    UsedOnward(ts, n + 2, rest);
    var used := Used(ts, rest);
    assert used[..n + 2] == ts[..n + 2] && used[4..n] == ts[4..n];
    assert forall i :: 0 <= i < n + 2 ==> used[i] == ts[i];
  }

  // ----- creations and insertions: the grammar says exactly what is accepted -----

  lemma FirstColumn(column: TblColumn, ts: Tokens, n: nat)
    requires n == (if column.canBeNull then 4 else 2) && |ts| > n && IsColumn(column, ts[..n]) && ts[n].kind != NotWord
    ensures ColumnDef(ts) == Parsed(column, ts[n..])
  {
    assert forall i :: 0 <= i < n ==> ts[..n][i] == ts[i];
  }

  lemma {:induction false} ColumnListParses(columns: seq<TblColumn>, ts: Tokens, rest: Tokens)
    requires IsColumnList(columns, ts, rest == [])
    ensures ColumnDefs(ts + rest) == Parsed(columns, rest)
  {
    hide ColumnDef, IsColumn;
    if columns == [] {
      assert ts + rest == [];
    } else {
      var n := if columns[0].canBeNull then 4 else 2;
      var all := ts + rest;
      assert all[..n] == ts[..n] && all[n] == ts[n];
      FirstColumn(columns[0], all, n);
      if ts[n].kind == Comma {
        assert all[n..][1..] == ts[n + 1..] + rest;
        ColumnListParses(columns[1..], ts[n + 1..], rest);
        PrefixedBy([columns[0]], columns[1..], rest);
        assert columns == [columns[0]] + columns[1..];
      } else {
        assert all[n..][1..] == rest && columns == [columns[0]];
      }
    }
  }

  lemma {:induction false} NameListParses(names: seq<string>, ts: Tokens, rest: Tokens)
    requires IsNameList(names, ts, rest == [])
    ensures ColumnNames(ts + rest) == Parsed(names, rest)
  {
    if names == [] {
      assert ts + rest == [];
    } else {
      var all := ts + rest;
      assert all[0] == ts[0] && all[1..][0] == ts[1] && all[2..] == ts[2..] + rest;
      if ts[1].kind == Comma {
        NameListParses(names[1..], ts[2..], rest);
        PrefixedBy([names[0]], names[1..], rest);
        assert names == [names[0]] + names[1..];
      } else {
        assert names == [names[0]] && all[2..] == rest;
      }
    }
  }

  lemma {:induction false} ValueListParses(values: seq<Given>, ts: Tokens, rest: Tokens)
    requires IsValueList(values, ts, rest == [])
    ensures GivenValues(ts + rest) == Parsed(values, rest)
  {
    if values == [] {
      assert ts + rest == [];
    } else {
      var all := ts + rest;
      assert all[0] == ts[0] && all[1..][0] == ts[1] && all[2..] == ts[2..] + rest;
      assert GivenValue(ts[0]) == Some(values[0]);
      if ts[1].kind == Comma {
        ValueListParses(values[1..], ts[2..], rest);
        PrefixedBy([values[0]], values[1..], rest);
        assert values == [values[0]] + values[1..];
      } else {
        assert values == [values[0]] && all[2..] == rest;
      }
    }
  }

  /** Lists that break off at the end included, and nothing else. */
  lemma DefinitionsExactly(s: Statement, ts: Tokens, rest: Tokens)
    requires !s.Selection?
    ensures Parse(ts + rest) == Parsed(s, rest) <==> DerivesStatement(s, ts, rest == [])
  {
    hide DerivesStatement, Parse;
    if Parse(ts + rest) == Parsed(s, rest) {
      ParsedDerives(ts + rest);
      assert Used(ts + rest, rest) == ts;
    }
    if DerivesStatement(s, ts, rest == []) {
      if s.Creation? { CreationAccepted(s, ts, rest); } else { InsertionAccepted(s, ts, rest); }
    }
  }

  lemma CreationAccepted(s: Statement, ts: Tokens, rest: Tokens)
    requires s.Creation? && DerivesStatement(s, ts, rest == [])
    ensures Parse(ts + rest) == Parsed(s, rest)
  {
    hide ColumnDefs, IsColumnList;
    var all := ts + rest;
    assert all[..4] == ts[..4] && all[1..][3..] == ts[4..] + rest;
    ColumnListParses(s.tblColumns, ts[4..], rest);
  }

  lemma InsertionAccepted(s: Statement, ts: Tokens, rest: Tokens)
    requires s.Insertion? && DerivesStatement(s, ts, rest == [])
    ensures Parse(ts + rest) == Parsed(s, rest)
  {
    hide ColumnNames, GivenValues, IsNameList, IsValueList;
    var n := 4 + 2 * |s.columns|;
    var all := ts + rest;
    var behind := ts[n..] + rest;
    assert all[1..][3..] == ts[4..n] + behind && behind[2..] == ts[n + 2..] + rest;
    assert behind[0] == ts[n] && behind[1..][0] == ts[n + 1];
    NameListParses(s.columns, ts[4..n], behind);
    ValueListParses(s.values, ts[n + 2..], rest);
  }

  // ----- the texts of a list of tokens -----

  ghost predicate IsTextOf(s: string, ts: Tokens) {
    exists lead, gaps :: IsGap(lead) && Gaps(ts, gaps) && Apart(ts, gaps) && s == lead + TextOf(ts, gaps)
  }

  /** The characters the lexer knows. */
  lemma KnownCharacters(c: char, more: string)
    ensures Front([c] + more).Unknown?
       <==> !('a' <= c <= 'z') && !('A' <= c <= 'Z') && !('0' <= c <= '9') && c !in " \n\r\t\"()+-/*,.!;"
  {
  }

  /** The token at the front is spelled as the text begins; a NUL would stand for the end of an open string. */
  lemma FoundSpelled(s: string)
    requires s != "" && '\0' !in s && Front(s).Found?
    requires Spellable(Front(s).token) && '\0' !in Front(s).token.literal
    ensures Front(s).size <= |s| && s[..Front(s).size] == Spelling(Front(s).token)
  {
    if s[0] == '"' {
      var end := StringEnd(s, 1);
      assert (s + "\0")[end] == Front(s).token.literal[end - 1];
      assert end < |s| && CharAt(s, end + 1) == '"' && end + 1 < |s|;
      assert (s + "\0")[1..end + 1] == s[1..end + 1];
      assert s[..end + 2] == [s[0]] + s[1..end + 1] + [s[end + 1]];
    } else if Punctuation(s[0]).Some? {
      assert s[..1] == [s[0]];
    }
  }

  lemma {:induction false} LexedIsText(s: string, ts: Tokens) returns (lead: string, gaps: seq<string>)
    requires '\0' !in s && Lex(s) == Some(ts)
    requires forall i :: 0 <= i < |ts| ==> Spellable(ts[i]) && '\0' !in ts[i].literal
    ensures IsGap(lead) && Gaps(ts, gaps) && s == lead + TextOf(ts, gaps)
    decreases |s|
  {
    hide Front, Spellable, Spelling, IsGap, TextOf;
    if s == "" {
      lead, gaps := "", [];
      NoText();
    } else if Front(s).Blank? {
      lead, gaps := LexedIsText(s[1..], ts);
      BlankIsGap(s, lead);
      lead := [s[0]] + lead;
      assert s == [s[0]] + s[1..];
    } else {
      var size := Front(s).size;
      assert ts[0] == Front(s).token;
      FoundSpelled(s);
      var gap, more := LexedIsText(s[size..], ts[1..]);
      lead, gaps := "", [gap] + more;
      NoText();
      TokenOnText(s, ts, gap, more);
    }
  }

  lemma NoText()
    ensures IsGap("") && TextOf([], []) == ""
  {
  }

  lemma BlankIsGap(s: string, lead: string)
    requires s != "" && Front(s).Blank? && IsGap(lead)
    ensures IsGap([s[0]] + lead)
  {
  }

  lemma TokenOnText(s: string, ts: Tokens, gap: string, more: seq<string>)
    requires ts != [] && IsGap(gap) && Gaps(ts[1..], more)
    requires |Spelling(ts[0])| <= |s| && s[..|Spelling(ts[0])|] == Spelling(ts[0])
    requires s[|Spelling(ts[0])|..] == gap + TextOf(ts[1..], more)
    ensures Gaps(ts, [gap] + more) && "" + TextOf(ts, [gap] + more) == s
  {
    hide Spelling, IsGap;
    assert ([gap] + more)[1..] == more;
    assert s == s[..|Spelling(ts[0])|] + s[|Spelling(ts[0])|..];
  }

  /** The lexer gives these tokens exactly for their texts. */
  lemma LexesExactly(s: string, ts: Tokens)
    requires '\0' !in s && forall i :: 0 <= i < |ts| ==> Spellable(ts[i]) && '\0' !in ts[i].literal
    ensures Lex(s) == Some(ts) <==> IsTextOf(s, ts)
  {
    if Lex(s) == Some(ts) {
      var lead, gaps := LexedIsText(s, ts);
      GapLexes(lead, TextOf(ts, gaps));
      TextLexes(ts, gaps);
    }
    if IsTextOf(s, ts) {
      var lead, gaps :| IsGap(lead) && Gaps(ts, gaps) && Apart(ts, gaps) && s == lead + TextOf(ts, gaps);
      GapLexes(lead, TextOf(ts, gaps));
      TextLexes(ts, gaps);
    }
  }
}
