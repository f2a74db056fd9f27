/**
 * The tokens the parser consumes. Scanning text into tokens is not part of
 * this model: a token is a type tag and the literal text it was read from,
 * and the lexer's output is an EOF-terminated sequence of them.
 */
module Tokens {

  datatype TokenType =
    | ILLEGAL | EOF
    | IDENT | INT | STRING
    | ASSIGN | PLUS | MINUS | BANG | ASTERISK | SLASH | LT | GT | EQ | NOT_EQ
    | COMMA | SEMICOLON | COLON | LPAREN | RPAREN | LBRACE | RBRACE | LBRACKET | RBRACKET
    | FUNCTION | LET | TRUE | FALSE | IF | ELSE | RETURN | WHILE

  datatype Token = Token(kind: TokenType, literal: string)

  /** The text a token type prints as in diagnostics (`%s` of a TokenType). */
  function Name(t: TokenType): string
  {
    match t
    case ILLEGAL => "ILLEGAL"
    case EOF => "EOF"
    case IDENT => "IDENT"
    case INT => "INT"
    case STRING => "STRING"
    case ASSIGN => "="
    case PLUS => "+"
    case MINUS => "-"
    case BANG => "!"
    case ASTERISK => "*"
    case SLASH => "/"
    case LT => "<"
    case GT => ">"
    case EQ => "=="
    case NOT_EQ => "!="
    case COMMA => ","
    case SEMICOLON => ";"
    case COLON => ":"
    case LPAREN => "("
    case RPAREN => ")"
    case LBRACE => "{"
    case RBRACE => "}"
    case LBRACKET => "["
    case RBRACKET => "]"
    case FUNCTION => "FUNCTION"
    case LET => "LET"
    case TRUE => "TRUE"
    case FALSE => "FALSE"
    case IF => "IF"
    case ELSE => "ELSE"
    case RETURN => "RETURN"
    case WHILE => "WHILE"
  }

  /** What a lexer hands the parser: at least one token, EOF last and nowhere else. */
  predicate IsTokenStream(ts: seq<Token>)
  {
    |ts| > 0 && ts[|ts| - 1].kind == EOF
    && forall i :: 0 <= i < |ts| - 1 ==> ts[i].kind != EOF
  }
}
