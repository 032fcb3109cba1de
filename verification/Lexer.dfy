/**
 Tokens, and the lexer.  As in a C++ string, the character just past the end of the text reads as NUL;
 a NUL inside the text ends it.
 */
module Lexer {
  import opened Pages

  datatype TokenKind =
    | SelectWord | FromWord | CreateWord | TableWord | NotWord | NullWord | InsertWord | IntoWord | ValuesWord
    | LeftParen | RightParen
    | Add | Subtract | Star | Divide | Bang
    | Comma | Dot
    | Identifier | Text | Integer | Real
    | Eof

  datatype Token = Token(kind: TokenKind, literal: string)

  predicate IsLetter(c: char) {
    'A' <= c <= 'Z' || 'a' <= c <= 'z'
  }

  predicate IsDigit(c: char) {
    '0' <= c <= '9'
  }

  predicate IsBlank(c: char) {
    c == ' ' || c == '\n' || c == '\r' || c == '\t'
  }

  function Keyword(word: string): Option<TokenKind> {
    if word == "select" then Some(SelectWord)
    else if word == "from" then Some(FromWord)
    else if word == "create" then Some(CreateWord)
    else if word == "table" then Some(TableWord)
    else if word == "not" then Some(NotWord)
    else if word == "null" then Some(NullWord)
    else if word == "insert" then Some(InsertWord)
    else if word == "into" then Some(IntoWord)
    else if word == "values" then Some(ValuesWord)
    else None
  }

  function Punctuation(c: char): Option<TokenKind> {
    match c
    case '(' => Some(LeftParen)
    case ')' => Some(RightParen)
    case '+' => Some(Add)
    case '-' => Some(Subtract)
    case '/' => Some(Divide)
    case '*' => Some(Star)
    case ',' => Some(Comma)
    case '.' => Some(Dot)
    case '!' => Some(Bang)
    case ';' => Some(Eof)
    case _ => None
  }

  // ----- what the lexer computes, on the text that is left -----

  function CharAt(s: string, i: nat): char {
    if i < |s| then s[i] else '\0'
  }

  /** The last position of the run of letters (digits) that goes on from position k. */
  function WordEnd(s: string, k: nat): (end: nat)
    requires k < |s|
    ensures k <= end < |s| && !IsLetter(CharAt(s, end + 1))
    ensures forall i :: k < i <= end ==> IsLetter(s[i])
    decreases |s| - k
  {
    if IsLetter(CharAt(s, k + 1)) then WordEnd(s, k + 1) else k
  }

  function NumberEnd(s: string, k: nat): (end: nat)
    requires k < |s|
    ensures k <= end < |s| && !IsDigit(CharAt(s, end + 1))
    ensures forall i :: k < i <= end ==> IsDigit(s[i])
    decreases |s| - k
  {
    if IsDigit(CharAt(s, k + 1)) then NumberEnd(s, k + 1) else k
  }

  /** The last position of a string's characters; an unclosed string runs through the NUL past the end. */
  function StringEnd(s: string, k: nat): (end: nat)
    requires k <= |s|
    ensures k <= end <= |s| && (end < |s| ==> CharAt(s, end + 1) == '"')
    ensures forall i :: k < i <= end ==> CharAt(s, i) != '"'
    decreases |s| - k
  {
    if k < |s| && CharAt(s, k + 1) != '"' then StringEnd(s, k + 1) else k
  }

  /** What is read at the front of a text: nothing but a blank, a token, or something unknown. */
  datatype Lexeme = Blank | Found(token: Token, size: nat) | Unknown

  function Front(s: string): (r: Lexeme)
    requires s != ""
    ensures r.Found? ==> r.size > 0
  {
    var c := s[0];
    if Punctuation(c).Some? then Found(Token(Punctuation(c).value, ""), 1)
    else if c == '"' then
      var end := StringEnd(s, 1);
      Found(Token(Text, (s + "\0")[1..end + 1]), end + 2)
    else if IsBlank(c) then Blank
    else if IsLetter(c) then
      var word := s[..WordEnd(s, 0) + 1];
      Found(Token(if Keyword(word).Some? then Keyword(word).value else Identifier, word), |word|)
    else if IsDigit(c) then
      var number := s[..NumberEnd(s, 0) + 1];
      Found(Token(Integer, number), |number|)
    else Unknown
  }

  function Rest(s: string, n: nat): string {
    if n <= |s| then s[n..] else ""
  }

  /** The tokens of a text, unless something unknown occurs in it. */
  function Lex(s: string): Option<seq<Token>>
    decreases |s|
  {
    if s == "" || s[0] == '\0' then Some([])
    else
      match Front(s)
      case Blank => Lex(s[1..])
      case Found(token, size) =>
        Joined([token], Lex(Rest(s, size)))
      case Unknown => None
  }

  function Joined(done: seq<Token>, more: Option<seq<Token>>): Option<seq<Token>> {
    if more.Some? then Some(done + more.value) else None
  }

  lemma JoinedEnds(done: seq<Token>, more: Option<seq<Token>>)
    ensures Joined([], more) == more && Joined(done, Some([])) == Some(done)
  {
    if more.Some? { assert [] + more.value == more.value; }
    assert done + [] == done;
  }

  lemma JoinedOneMore(done: seq<Token>, token: Token, more: Option<seq<Token>>)
    ensures Joined(done + [token], more) == Joined(done, Joined([token], more))
  {
    if more.Some? { assert done + [token] + more.value == done + ([token] + more.value); }
  }

  // ----- the lexer -----

  class Scanner {
    const input: string
    var position: nat
    var nextPosition: nat
    var current: char
    var tokens: seq<Token>

    ghost predicate Valid()
      reads this
    {
      nextPosition == position + 1 && current == CharAt(input, position)
    }

    ghost function Left(): string
      reads this
    {
      Rest(input, position)
    }

    constructor (input: string)
      requires input != ""
      ensures Valid() && this.input == input && position == 0 && tokens == []
    {
      this.input := input;
      position, nextPosition, tokens := 0, 1, [];
      current := input[0];
    }

    function IsAtEnd(): bool
      reads this
    {
      nextPosition > |input|
    }

    method Read()
      requires Valid()
      modifies this`current, this`position, this`nextPosition
      ensures Valid() && position == old(position) + 1
    {
      current := if IsAtEnd() then '\0' else CharAt(input, nextPosition);
      position, nextPosition := nextPosition, nextPosition + 1;
    }

    function Peek(): (c: char)
      requires Valid()
      reads this
      ensures c == CharAt(input, position + 1)
    {
      if IsAtEnd() then '\0' else CharAt(input, nextPosition)
    }

    method AddToken(kind: TokenKind, literal: string)
      modifies this`tokens
      ensures tokens == old(tokens) + [Token(kind, literal)]
    {
      tokens := tokens + [Token(kind, literal)];
    }

    /** One token, or one blank; false when the character is unknown. */
    method NextToken() returns (ok: bool)
      requires Valid() && position < |input| && current != '\0'
      modifies this
      ensures Valid() && position > old(position)
      ensures ok <==> !Front(old(Left())).Unknown?
      ensures Front(old(Left())).Blank? ==> position == old(position) + 1 && tokens == old(tokens)
      ensures Front(old(Left())).Found? ==>
                && position == old(position) + Front(old(Left())).size
                && tokens == old(tokens) + [Front(old(Left())).token]
    {
      ok := true;
      if Punctuation(current).Some? {
        AddToken(Punctuation(current).value, "");
      } else if current == '"' {
        ParseString();
      } else if IsBlank(current) {
      } else if IsLetter(current) {
        AddIdentifier();
      } else if IsDigit(current) {
        AddNumber();
      } else {
        ok := false;
      }
      Read();
    }

    /** Ends on the last digit.  A digit is never a dot, so the branch for reals is never taken. */
    method AddNumber()
      requires Valid() && position < |input| && IsDigit(current)
      modifies this
      ensures Valid() && position == old(position) + NumberEnd(old(Left()), 0)
      ensures tokens == old(tokens) + [Token(Integer, old(Left())[..NumberEnd(old(Left()), 0) + 1])]
    {
      ghost var s := Left();
      var currentPos := position;
      while IsDigit(Peek())
        invariant Valid() && currentPos <= position < |input| && tokens == old(tokens)
        invariant IsDigit(current)
        invariant NumberEnd(s, position - currentPos) == NumberEnd(s, 0)
        decreases |input| - position
      {
        Read();
      }
      assert s[..position - currentPos + 1] == input[currentPos..position + 1];
      assert current != '.';
      AddToken(Integer, input[currentPos..position + 1]);
    }

    /** Ends on the closing quote. */
    method ParseString()
      requires Valid() && position < |input|
      modifies this
      ensures Valid() && position == old(position) + StringEnd(old(Left()), 1) + 1
      ensures tokens == old(tokens) + [Token(Text, (old(Left()) + "\0")[1..StringEnd(old(Left()), 1) + 1])]
    {
      ghost var s, start := Left(), position;
      Read();
      var currentPos := position;
      while !IsAtEnd() && Peek() != '"'
        invariant Valid() && currentPos <= position <= |input| && tokens == old(tokens)
        invariant StringEnd(s, position - start) == StringEnd(s, 1)
        decreases |input| - position
      {
        Read();
      }
      assert (s + "\0")[1..position - start + 1] == (input + "\0")[currentPos..position + 1];
      var str := (input + "\0")[currentPos..position + 1];
      Read();
      AddToken(Text, str);
    }

    /** Ends on the last letter. */
    method AddIdentifier()
      requires Valid() && position < |input|
      modifies this
      ensures Valid() && position == old(position) + WordEnd(old(Left()), 0)
      ensures var word := old(Left())[..WordEnd(old(Left()), 0) + 1];
              tokens == old(tokens) + [Token(if Keyword(word).Some? then Keyword(word).value else Identifier, word)]
    {
      ghost var s := Left();
      var currentPos := position;
      while IsLetter(Peek())
        invariant Valid() && currentPos <= position < |input| && tokens == old(tokens)
        invariant WordEnd(s, position - currentPos) == WordEnd(s, 0)
        decreases |input| - position
      {
        Read();
      }
      assert s[..position - currentPos + 1] == input[currentPos..position + 1];
      var keyword := input[currentPos..position + 1];
      if Keyword(keyword).Some? {
        AddToken(Keyword(keyword).value, keyword);
        return;
      }
      AddToken(Identifier, keyword);
    }

    method GetTokens() returns (r: Outcome<seq<Token>>)
      requires Valid() && position == 0 && tokens == []
      modifies this
      ensures r == match Lex(input) case Some(all) => Returned(all) case None => Thrown
    {
      assert Left() == input;
      JoinedEnds([], Lex(input));
      while current != '\0'
        invariant Valid()
        invariant Lex(input) == Joined(tokens, Lex(Left()))
        decreases |input| - position
      {
        ghost var s, before := Left(), tokens;
        assert s[0] == current;
        var ok := NextToken();
        if !ok { return Thrown; }
        assert Left() == Rest(s, if Front(s).Blank? then 1 else Front(s).size);
        if Front(s).Found? { JoinedOneMore(before, Front(s).token, Lex(Left())); }
      }
      JoinedEnds(tokens, None);
      return Returned(tokens);
    }
  }

  /** A lexer refuses an empty text. */
  method Tokenize(input: string) returns (r: Outcome<seq<Token>>)
    ensures r.Thrown? <==> input == "" || Lex(input) == None
    ensures r.Returned? ==> Lex(input) == Some(r.value)
  {
    if input == "" { return Thrown; }
    var scanner := new Scanner(input);
    r := scanner.GetTokens();
  }
}
