/** Bytes, tokens, modes, limits and syntax errors: the vocabulary shared by the lexer and the
    response reader. */
module Tokens {

  datatype Option<+T> = None | Some(value: T)

  type byte = b: int | 0 <= b < 256

  const NUL: byte := 0x00
  const LF: byte := 0x0A
  const CR: byte := 0x0D
  const SP: byte := 0x20
  const DQUOTE: byte := 0x22
  const LPAREN: byte := 0x28
  const RPAREN: byte := 0x29
  const PLUS: byte := 0x2B
  const ZERO: byte := 0x30
  const NINE: byte := 0x39
  const LBRACKET: byte := 0x5B
  const BACKSLASH: byte := 0x5C
  const RBRACKET: byte := 0x5D
  const LBRACE: byte := 0x7B
  const RBRACE: byte := 0x7D
  const TILDE: byte := 0x7E
  const DEL: byte := 0x7F

  // ---- Modes, limits, errors ----

  datatype LexMode = NormalMode | AstringMode | TextMode | RespTextMode | CodeNameMode | CodeTextMode

  datatype Limits = Limits(maxToken: nat, maxLiteral: nat, maxDepth: nat)

  datatype SyntaxErrorKind =
    | InvalidCharacter
    | BadLineEnding
    | UnterminatedQuoted
    | BadEscape
    | BadLiteral
    | LiteralTooLarge
    | NumberTooLarge
    | TokenTooLong
    | NestingTooDeep
    | UnexpectedEnd
    | UnexpectedToken

  datatype SyntaxError = SyntaxError(kind: SyntaxErrorKind, offset: nat)

  // ---- Tokens ----

  datatype TokenKind =
    | Atom
    | Number
    | Quoted
    | Nil
    | LiteralBegin
    | LiteralData
    | LiteralEnd
    | LParen
    | RParen
    | LBracket
    | RBracket
    | Text
    | Eol

  datatype Token = Token(
    kind: TokenKind,
    spaces: nat,
    offset: nat,
    raw: seq<byte>,
    unescaped: seq<byte>,
    number: nat,
    binary: bool,
    data: seq<byte>)
  {
    /** The bytes of the stream this token stands for, after its spaces. */
    function Bytes(): seq<byte> {
      if kind == LiteralData then data else raw
    }

    /** An atom that spells `name`, in whatever mixture of upper and lower case. */
    predicate IsAtom(name: seq<byte>) {
      && kind == Atom
      && |raw| == |name|
      && forall i :: 0 <= i < |raw| ==> Upper(raw[i]) == Upper(name[i])
    }
  }

  function Upper(c: byte): byte {
    if 0x61 <= c <= 0x7A then c - 0x20 else c
  }

  /** The bytes of an ASCII keyword. */
  function Ascii(s: string): seq<byte> {
    seq(|s|, i requires 0 <= i < |s| => if s[i] < 128 as char then s[i] as int else 0)
  }

  // ---- Character classes ----

  predicate IsControl(c: byte) {
    c < 0x20 || c == DEL
  }

  /** Atom characters; brackets belong to atoms only where an astring is expected. */
  predicate IsAtomChar(c: byte, mode: LexMode) {
    if c <= 0x20 || c == DEL then false
    else if c == LPAREN || c == RPAREN || c == LBRACE || c == DQUOTE then false
    else if c == LBRACKET || c == RBRACKET then mode == AstringMode
    else true
  }

  predicate IsDigit(c: byte) {
    ZERO <= c <= NINE
  }


  predicate EqualsNil(raw: seq<byte>) {
    |raw| == 3 && Upper(raw[0]) == 0x4E && Upper(raw[1]) == 0x49 && Upper(raw[2]) == 0x4C
  }
}
