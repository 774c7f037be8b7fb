/** The lexer and the decoder of string literals. Bytes of the source text are
    characters here. */
module Lexer {
  import opened Ir

  datatype Kind =
    | Eof | String | Number | Ident | Keyword(word: string)
    | Colon | Semi | LParen | RParen | LBracket | RBracket | LBrace | RBrace | Comma | Dot | DblDot
    | ArrowBind | EqEq | Equal | DashDash | Arrow | LessPipe | LessEqual | PipeGreater | Pipe | Apostrophe | Slash | GreaterEqual
    | AmpBangLBracket | AmpBang | AmpLBracket | Amp | NotEqual

  datatype Token = Token(kind: Kind, start: nat, end: nat)

  // ---- characters ----

  predicate IsBlank(c: char) {
    c == ' ' || c == '\n' || c == '\r' || c == '\t'
  }

  predicate IsDigit(c: char) {
    '0' <= c <= '9'
  }

  predicate IsIdentStart(c: char) {
    'a' <= c <= 'z' || 'A' <= c <= 'Z' || c == '_' || c == '@' || c == '!'
  }

  predicate IsIdentContinue(c: char) {
    IsIdentStart(c) || IsDigit(c) || c == '-' || c == '?' || c == '!'
  }

  predicate IsNumberContinue(c: char) {
    IsDigit(c) || c == 'x' || c == 'X' || c == 'b' || c == 'B' || 'a' <= c <= 'f' || 'A' <= c <= 'F' || c == '_'
  }

  predicate At(src: string, i: nat, c: char) {
    i < |src| && src[i] == c
  }

  // ---- what the loops compute ----

  /** The end of the run of characters from `i` on that satisfy `p`. */
  function RunEnd(src: string, i: nat, p: char -> bool): (j: nat)
    requires i <= |src|
    ensures i <= j <= |src|
    ensures j < |src| ==> !p(src[j])
    ensures forall k :: i <= k < j ==> p(src[k])
    decreases |src| - i
  {
    if i < |src| && p(src[i]) then RunEnd(src, i + 1, p) else i
  }

  /** Behind the line end of a comment, or the end of the text. */
  function CommentEnd(src: string, i: nat): (j: nat)
    requires i <= |src|
    ensures i <= j <= |src|
    ensures forall k :: i <= k < j - 1 ==> src[k] != '\n'
    ensures j < |src| ==> i < j && src[j - 1] == '\n'
    decreases |src| - i
  {
    if i == |src| then i else if src[i] == '\n' then i + 1 else CommentEnd(src, i + 1)
  }

  /** Past blanks and comments. */
  function Skip(src: string, i: nat): (j: nat)
    requires i <= |src|
    ensures i <= j <= |src|
    decreases |src| - i
  {
    var b := RunEnd(src, i, IsBlank);
    if At(src, b, '#') then Skip(src, CommentEnd(src, b)) else b
  }

  /** Behind the closing quote, or the end of the text: a backslash takes the next
      character with it. */
  function StringEnd(src: string, i: nat): (j: nat)
    requires i <= |src|
    ensures i <= j <= |src|
    decreases |src| - i
  {
    if i == |src| then i
    else if src[i] == '\\' then StringEnd(src, if i + 1 < |src| then i + 2 else i + 1)
    else if src[i] == '"' then i + 1
    else StringEnd(src, i + 1)
  }

  const KEYWORDS: seq<string> := ["module", "import", "export", "end", "type", "subtype", "struct", "enum", "const", "resource",
                                  "register-map", "owned", "iso", "requires", "ensures", "needs", "performs", "board"]

  function IdentToken(src: string, start: nat, i: nat): Token
    requires start <= i <= |src|
  {
    var j := RunEnd(src, i, IsIdentContinue);
    Token(if src[start..j] in KEYWORDS then Keyword(src[start..j]) else Ident, start, j)
  }

  function NumberToken(src: string, start: nat, i: nat): Token
    requires start <= i <= |src|
  {
    Token(Number, start, RunEnd(src, i, IsNumberContinue))
  }

  function Simple(c: char): Option<Kind> {
    match c
    case ':' => Some(Colon)
    case ';' => Some(Semi)
    case '(' => Some(LParen)
    case ')' => Some(RParen)
    case '[' => Some(LBracket)
    case ']' => Some(RBracket)
    case '{' => Some(LBrace)
    case '}' => Some(RBrace)
    case ',' => Some(Comma)
    case '\'' => Some(Apostrophe)
    case '/' => Some(Slash)
    case _ => None
  }

  /** The token that begins at `start`. */
  function TokenAt(src: string, start: nat): (t: Token)
    requires start < |src|
    ensures t.kind != Eof && t.start == start < t.end <= |src|
    ensures t.kind == String <==> src[start] == '"'
  {
    var c, i := src[start], start + 1;
    if Simple(c).Some? then Token(Simple(c).value, start, i)
    else if c == '.' then (if At(src, i, '.') then Token(DblDot, start, i + 1) else Token(Dot, start, i))
    else if c == '=' then
      (if At(src, i, '>') then Token(ArrowBind, start, i + 1)
       else if At(src, i, '=') then Token(EqEq, start, i + 1)
       else Token(Equal, start, i))
    else if c == '-' then
      (if At(src, i, '-') then Token(DashDash, start, i + 1)
       else if At(src, i, '>') then Token(Arrow, start, i + 1)
       else if i < |src| && IsDigit(src[i]) then NumberToken(src, start, i)
       else IdentToken(src, start, i))
    else if c == '<' then
      (if At(src, i, '|') then Token(LessPipe, start, i + 1)
       else if At(src, i, '=') then Token(LessEqual, start, i + 1)
       else IdentToken(src, start, i))
    else if c == '|' then (if At(src, i, '>') then Token(PipeGreater, start, i + 1) else Token(Pipe, start, i))
    else if c == '>' then (if At(src, i, '=') then Token(GreaterEqual, start, i + 1) else IdentToken(src, start, i))
    else if c == '&' then
      (if At(src, i, '!') then
         (if At(src, i + 1, '[') then Token(AmpBangLBracket, start, i + 2) else Token(AmpBang, start, i + 1))
       else if At(src, i, '[') then Token(AmpLBracket, start, i + 1)
       else Token(Amp, start, i))
    else if c == '!' then (if At(src, i, '=') then Token(NotEqual, start, i + 1) else IdentToken(src, start, i))
    else if c == '"' then Token(String, start, StringEnd(src, i))
    else if IsIdentStart(c) then IdentToken(src, start, i)
    else if IsDigit(c) then NumberToken(src, start, i)
    else Token(Ident, start, i)
  }

  function NextToken(src: string, i: nat): (t: Token)
    requires i <= |src|
    ensures i <= t.start <= t.end <= |src|
    ensures t.kind == Eof <==> t.start == t.end
  {
    var start := Skip(src, i);
    if start == |src| then Token(Eof, start, start) else TokenAt(src, start)
  }

  // ---- the decoder of literals ----

  const STRING_MAX: nat := 256

  function Escaped(c: char): char {
    match c
    case 'n' => '\n'
    case 'r' => '\r'
    case 't' => '\t'
    case '0' => '\0'
    case _ => c
  }

  /** The decoder on the bytes between the quotes, with `out` decoded already: it
      fails on a backslash without a character after it, and when `out` is full. */
  function DecodeFrom(s: string, i: nat, out: string): Option<string>
    requires |s| > 0
    decreases |s| - i
  {
    if i + 1 >= |s| then Some(out)
    else if s[i] == '\\' then
      (if i + 2 >= |s| || |out| >= STRING_MAX then None else DecodeFrom(s, i + 2, out + [Escaped(s[i + 1])]))
    else if |out| >= STRING_MAX then None
    else DecodeFrom(s, i + 1, out + [s[i]])
  }

  function Decode(src: string, start: nat, end: nat): Option<string>
    requires start <= end <= |src|
  {
    if end <= start + 1 then None
    else
      var s := src[start..end];
      if s[0] != '"' || s[|s| - 1] != '"' then None else DecodeFrom(s, 1, "")
  }

  // ---- the lexer as it runs ----

  class Scanner {
    const src: string
    var i: nat

    constructor (text: string)
      ensures src == text && i == 0
    {
      src := text;
      i := 0;
    }

    method SkipRun(p: char -> bool)
      requires i <= |src|
      modifies this`i
      ensures i == RunEnd(src, old(i), p)
    {
      while i < |src| && p(src[i])
        invariant i <= |src| && RunEnd(src, i, p) == RunEnd(src, old(i), p)
      {
        i := i + 1;
      }
    }

    method SkipBlanksAndComments()
      requires i <= |src|
      modifies this`i
      ensures i == Skip(src, old(i))
    {
      while true
        invariant i <= |src| && Skip(src, i) == Skip(src, old(i))
        decreases |src| - i
      {
        SkipRun(IsBlank);
        if !At(src, i, '#') {
          return;
        }
        ghost var from := i;
        while i < |src|
          invariant from <= i <= |src| && CommentEnd(src, i) == CommentEnd(src, from)
          invariant from < |src| && src[from] == '#'
        {
          i := i + 1;
          if src[i - 1] == '\n' {
            break;
          }
        }
        assert i == CommentEnd(src, from);
      }
    }

    method LexString(start: nat) returns (t: Token)
      requires start < i <= |src|
      modifies this`i
      ensures i == StringEnd(src, old(i)) && t == Token(String, start, i)
    {
      while i < |src|
        invariant i <= |src| && StringEnd(src, i) == StringEnd(src, old(i))
        decreases |src| - i
      {
        var b := src[i];
        i := i + 1;
        if b == '\\' {
          if i < |src| {
            i := i + 1;
          }
          continue;
        }
        if b == '"' {
          return Token(String, start, i);
        }
      }
      return Token(String, start, i);
    }

    method LexIdent(start: nat) returns (t: Token)
      requires start < i <= |src|
      modifies this`i
      ensures t == IdentToken(src, start, old(i)) && i == t.end
    {
      SkipRun(IsIdentContinue);
      var text := src[start..i];
      return Token(if text in KEYWORDS then Keyword(text) else Ident, start, i);
    }

    method LexNumber(start: nat) returns (t: Token)
      requires start < i <= |src|
      modifies this`i
      ensures t == NumberToken(src, start, old(i)) && i == t.end
    {
      SkipRun(IsNumberContinue);
      return Token(Number, start, i);
    }

    /** Steps over a second character of a token if it is `c`. */
    method Take(c: char) returns (taken: bool)
      requires i <= |src|
      modifies this`i
      ensures taken == At(src, old(i), c) && i == old(i) + (if taken then 1 else 0)
    {
      taken := At(src, i, c);
      if taken {
        i := i + 1;
      }
    }

    method Ampersand(start: nat) returns (t: Token)
      requires start + 1 == i <= |src| && src[start] == '&'
      modifies this`i
      ensures t == TokenAt(src, start) && i == t.end
    {
      var bang := Take('!');
      if bang {
        var slice := Take('[');
        return Token(if slice then AmpBangLBracket else AmpBang, start, i);
      }
      var slice := Take('[');
      return Token(if slice then AmpLBracket else Amp, start, i);
    }

    method Dash(start: nat) returns (t: Token)
      requires start + 1 == i <= |src| && src[start] == '-'
      modifies this`i
      ensures t == TokenAt(src, start) && i == t.end
    {
      var dash := Take('-');
      if dash {
        return Token(DashDash, start, i);
      }
      var arrow := Take('>');
      if arrow {
        return Token(Arrow, start, i);
      }
      if i < |src| && IsDigit(src[i]) {
        t := LexNumber(start);
      } else {
        t := LexIdent(start);
      }
    }

    method Equals(start: nat) returns (t: Token)
      requires start + 1 == i <= |src| && src[start] == '='
      modifies this`i
      ensures t == TokenAt(src, start) && i == t.end
    {
      var arrow := Take('>');
      if arrow {
        return Token(ArrowBind, start, i);
      }
      var equal := Take('=');
      return Token(if equal then EqEq else Equal, start, i);
    }

    method Compare(start: nat) returns (t: Token)
      requires start + 1 == i <= |src| && (src[start] == '<' || src[start] == '>' || src[start] == '!')
      modifies this`i
      ensures t == TokenAt(src, start) && i == t.end
    {
      var c := src[start];
      if c == '<' {
        var pipe := Take('|');
        if pipe {
          return Token(LessPipe, start, i);
        }
      }
      var equal := Take('=');
      if equal {
        return Token(if c == '<' then LessEqual else if c == '>' then GreaterEqual else NotEqual, start, i);
      }
      t := LexIdent(start);
    }

    /** `Lexer::next`. */
    method Next() returns (t: Token)
      requires i <= |src|
      modifies this`i
      ensures t == NextToken(src, old(i)) && i == t.end
    {
      SkipBlanksAndComments();
      if i == |src| {
        return Token(Eof, i, i);
      }
      var start := i;
      var c := src[i];
      i := i + 1;
      if Simple(c).Some? {
        return Token(Simple(c).value, start, i);
      }
      if c == '.' {
        var two := Take('.');
        return Token(if two then DblDot else Dot, start, i);
      }
      if c == '|' {
        var two := Take('>');
        return Token(if two then PipeGreater else Pipe, start, i);
      }
      if c == '=' {
        t := Equals(start);
      } else if c == '-' {
        t := Dash(start);
      } else if c == '<' || c == '>' || c == '!' {
        t := Compare(start);
      } else if c == '&' {
        t := Ampersand(start);
      } else if c == '"' {
        t := LexString(start);
      } else if IsIdentStart(c) {
        t := LexIdent(start);
      } else if IsDigit(c) {
        t := LexNumber(start);
      } else {
        t := Token(Ident, start, i);
      }
    }
  }

  /** `decode_string_bytes`. */
  method DecodeStringBytes(src: string, start: nat, end: nat) returns (r: Option<string>)
    requires start <= end <= |src|
    ensures r == Decode(src, start, end)
  {
    if end <= start + 1 {
      return None;
    }
    var s := src[start..end];
    if s[0] != '"' || s[|s| - 1] != '"' {
      return None;
    }
    var out, i := "", 1;
    while i + 1 < |s|
      invariant 1 <= i && DecodeFrom(s, i, out) == DecodeFrom(s, 1, "")
      decreases |s| - i
    {
      var c := s[i];
      if c == '\\' {
        i := i + 1;
        if i + 1 >= |s| {
          return None;
        }
        c := Escaped(s[i]);
      }
      if |out| >= STRING_MAX {
        return None;
      }
      out := out + [c];
      i := i + 1;
    }
    return Some(out);
  }
}
