/** Which token stands where: its kind from its characters, by a table of spellings and
    the characters each kind may be made of. */
module LexerKinds {
  import opened Ir
  import opened Lexer
  import opened LexerTheorems

  // ---- the tables ----

  const DIGITS: string := "0123456789"
  const LOWER: string := "abcdefghijklmnopqrstuvwxyz"
  const UPPER: string := "ABCDEFGHIJKLMNOPQRSTUVWXYZ"
  const BLANKS: string := " \n\r\t"

  function IdentStarts(): string {
    LOWER + UPPER + "_@!"
  }

  function IdentChars(): string {
    LOWER + UPPER + DIGITS + "_@!-?"
  }

  function NumberChars(): string {
    DIGITS + "abcdefABCDEFxX_"
  }

  predicate IsPunctuation(k: Kind) {
    !k.Eof? && !k.String? && !k.Number? && !k.Ident? && !k.Keyword?
  }

  /** How a punctuation mark is written. */
  function Spelling(k: Kind): string
    requires IsPunctuation(k)
  {
    match k
    case Colon => ":"
    case Semi => ";"
    case LParen => "("
    case RParen => ")"
    case LBracket => "["
    case RBracket => "]"
    case LBrace => "{"
    case RBrace => "}"
    case Comma => ","
    case Dot => "."
    case DblDot => ".."
    case ArrowBind => "=>"
    case EqEq => "=="
    case Equal => "="
    case DashDash => "--"
    case Arrow => "->"
    case LessPipe => "<|"
    case LessEqual => "<="
    case PipeGreater => "|>"
    case Pipe => "|"
    case Apostrophe => "'"
    case Slash => "/"
    case GreaterEqual => ">="
    case AmpBangLBracket => "&!["
    case AmpBang => "&!"
    case AmpLBracket => "&["
    case Amp => "&"
    case NotEqual => "!="
  }

  predicate Stands(src: string, i: nat, text: string) {
    i + |text| <= |src| && src[i..i + |text|] == text
  }

  ghost predicate PunctuationAt(src: string, i: nat, k: Kind) {
    IsPunctuation(k) && Stands(src, i, Spelling(k))
  }

  /** The longest punctuation mark that stands at `i`. */
  ghost predicate LongestAt(src: string, i: nat, k: Kind) {
    PunctuationAt(src, i, k) && forall q :: PunctuationAt(src, i, q) ==> |Spelling(q)| <= |Spelling(k)|
  }

  /** All characters from `i` on and below `j` are among `chars`, and the next is not. */
  ghost predicate RunOf(src: string, i: nat, j: nat, chars: string) {
    && i <= j <= |src| && (forall m :: i <= m < j ==> src[m] in chars)
    && (j < |src| ==> src[j] !in chars)
  }

  predicate BeginsNumber(src: string, i: nat) {
    i < |src| && (src[i] in DIGITS || (src[i] == '-' && i + 1 < |src| && src[i + 1] in DIGITS))
  }

  /** Characters an identifier-like token may begin with: those of identifiers, and
      three that are no marks of their own. */
  predicate BeginsWord(c: char) {
    c in IdentStarts() || c == '-' || c == '<' || c == '>'
  }

  /** What a token that begins at `i` must be. */
  ghost predicate Classified(src: string, i: nat, t: Token)
    requires i < |src|
  {
    && t.start == i < t.end <= |src|
    && if exists k :: PunctuationAt(src, i, k) then LongestAt(src, i, t.kind) && t.end == i + |Spelling(t.kind)|
       else if src[i] == '"' then t.kind == String && t.end == StringEnd(src, i + 1)
       else if BeginsNumber(src, i) then t.kind == Number && RunOf(src, i + 1, t.end, NumberChars())
       else if BeginsWord(src[i]) then
         && RunOf(src, i + 1, t.end, IdentChars())
         && t.kind == if src[i..t.end] in KEYWORDS then Keyword(src[i..t.end]) else Ident
       else t.kind == Ident && t.end == i + 1
  }

  // ---- the character classes ----

  lemma CharClasses(c: char)
    ensures IsDigit(c) <==> c in DIGITS
    ensures IsBlank(c) <==> c in BLANKS
    ensures IsIdentStart(c) <==> c in IdentStarts()
    ensures IsIdentContinue(c) <==> c in IdentChars()
    ensures IsNumberContinue(c) <==> c in NumberChars()
  {
    DigitIs(c);
    LowerIs(c);
    UpperIs(c);
    HexIs(c);
  }

  lemma DigitIs(c: char)
    ensures '0' <= c <= '9' <==> c in "0123456789"
  {
    if '0' <= c <= '9' {
      var k := c as int - '0' as int;
      assert "0123456789"[k] == c;
    }
  }

  lemma HexIs(c: char)
    ensures 'a' <= c <= 'f' <==> c in "abcdef"
    ensures 'A' <= c <= 'F' <==> c in "ABCDEF"
  {
  }

  lemma LowerIs(c: char)
    ensures 'a' <= c <= 'z' <==> c in LOWER
  {
    if 'a' <= c <= 'z' {
      var k := c as int - 'a' as int;
      assert LOWER[k] == c;
    }
  }

  lemma UpperIs(c: char)
    ensures 'A' <= c <= 'Z' <==> c in UPPER
  {
    if 'A' <= c <= 'Z' {
      var k := c as int - 'A' as int;
      assert UPPER[k] == c;
    }
  }

  // ---- marks ----

  /** A text of one to three characters, character by character. */
  lemma StandsIs(src: string, i: nat, text: string)
    requires i < |src| && 1 <= |text| <= 3
    ensures Stands(src, i, text) <==>
      src[i] == text[0] && (|text| >= 2 ==> At(src, i + 1, text[1])) && (|text| == 3 ==> At(src, i + 2, text[2]))
  {
    if i + |text| <= |src| {
      var part := src[i..i + |text|];
      assert part == text <==> forall k :: 0 <= k < |text| ==> part[k] == text[k];
    }
  }

  lemma MarkIs(src: string, i: nat, k: Kind)
    requires i < |src| && IsPunctuation(k)
    ensures
      var text := Spelling(k);
      && 1 <= |text| <= 3
      && (PunctuationAt(src, i, k) <==>
            src[i] == text[0] && (|text| >= 2 ==> At(src, i + 1, text[1])) && (|text| == 3 ==> At(src, i + 2, text[2])))
  {
    StandsIs(src, i, Spelling(k));
  }

  /** Where a character begins no mark, none stands. */
  lemma NoMark(src: string, i: nat)
    requires i < |src| && Simple(src[i]).None?
    requires src[i] !in ".=-<|>&!"
    ensures forall k :: !PunctuationAt(src, i, k)
  {
    forall k | IsPunctuation(k) ensures !PunctuationAt(src, i, k) {
      MarkIs(src, i, k);
    }
  }

  lemma SimpleMark(src: string, i: nat)
    requires i < |src| && Simple(src[i]).Some?
    ensures Classified(src, i, TokenAt(src, i))
  {
    var t := TokenAt(src, i);
    MarkIs(src, i, t.kind);
    forall q | PunctuationAt(src, i, q) ensures |Spelling(q)| <= |Spelling(t.kind)| {
      MarkIs(src, i, q);
    }
    assert PunctuationAt(src, i, t.kind);
  }

  /** A mark chosen among those that begin alike. */
  lemma ChosenMark(src: string, i: nat, k: Kind)
    requires i < |src| && IsPunctuation(k) && PunctuationAt(src, i, k)
    requires forall q :: IsPunctuation(q) && |Spelling(q)| > |Spelling(k)| ==> !PunctuationAt(src, i, q)
    requires TokenAt(src, i) == Token(k, i, i + |Spelling(k)|)
    ensures Classified(src, i, TokenAt(src, i))
  {
  }

  lemma CompoundStands(src: string, i: nat)
    requires i < |src| && src[i] in ".=-<|>&!" && IsPunctuation(TokenAt(src, i).kind)
    ensures PunctuationAt(src, i, TokenAt(src, i).kind) && TokenAt(src, i).end == i + |Spelling(TokenAt(src, i).kind)|
  {
    if src[i] in ".=-<" {
      FirstMarkStands(src, i);
    } else {
      SecondMarkStands(src, i);
    }
  }

  lemma FirstMarkStands(src: string, i: nat)
    requires i < |src| && src[i] in ".=-<" && IsPunctuation(TokenAt(src, i).kind)
    ensures PunctuationAt(src, i, TokenAt(src, i).kind) && TokenAt(src, i).end == i + |Spelling(TokenAt(src, i).kind)|
  {
    MarkIs(src, i, TokenAt(src, i).kind);
  }

  lemma SecondMarkStands(src: string, i: nat)
    requires i < |src| && src[i] in "|>&!" && IsPunctuation(TokenAt(src, i).kind)
    ensures PunctuationAt(src, i, TokenAt(src, i).kind) && TokenAt(src, i).end == i + |Spelling(TokenAt(src, i).kind)|
  {
    MarkIs(src, i, TokenAt(src, i).kind);
  }

  /** A mark longer than the one that was chosen does not stand there. */
  lemma NoLonger(src: string, i: nat, q: Kind)
    requires i < |src| && src[i] in ".=-<|>&!" && IsPunctuation(TokenAt(src, i).kind)
    requires IsPunctuation(q) && |Spelling(q)| > |Spelling(TokenAt(src, i).kind)|
    ensures !PunctuationAt(src, i, q)
  {
    hide PunctuationAt;
    MarkIs(src, i, q);
    if Spelling(q)[0] == src[i] {
      SameBeginning(src, i, q);
    }
  }

  lemma SameBeginning(src: string, i: nat, q: Kind)
    requires i < |src| && src[i] in ".=-<|>&!" && IsPunctuation(TokenAt(src, i).kind)
    requires IsPunctuation(q) && |Spelling(q)| > |Spelling(TokenAt(src, i).kind)| && Spelling(q)[0] == src[i]
    ensures !At(src, i + 1, Spelling(q)[1]) || (|Spelling(q)| == 3 && !At(src, i + 2, Spelling(q)[2]))
  {
    if src[i] in ".=-<" {
      FirstMarkGoesOn(src, i, q);
    } else {
      SecondMarkGoesOn(src, i, q);
    }
  }

  lemma FirstMarkGoesOn(src: string, i: nat, q: Kind)
    requires i < |src| && src[i] in ".=-<" && IsPunctuation(TokenAt(src, i).kind)
    requires IsPunctuation(q) && |Spelling(q)| > |Spelling(TokenAt(src, i).kind)| && Spelling(q)[0] == src[i]
    ensures !At(src, i + 1, Spelling(q)[1])
  {
  }

  lemma SecondMarkGoesOn(src: string, i: nat, q: Kind)
    requires i < |src| && src[i] in "|>&!" && IsPunctuation(TokenAt(src, i).kind)
    requires IsPunctuation(q) && |Spelling(q)| > |Spelling(TokenAt(src, i).kind)| && Spelling(q)[0] == src[i]
    ensures !At(src, i + 1, Spelling(q)[1]) || (|Spelling(q)| == 3 && !At(src, i + 2, Spelling(q)[2]))
  {
  }

  lemma CompoundMark(src: string, i: nat)
    requires i < |src| && src[i] in ".=-<|>&!" && IsPunctuation(TokenAt(src, i).kind)
    ensures Classified(src, i, TokenAt(src, i))
  {
    hide PunctuationAt;
    hide Spelling;
    hide TokenAt;
    CompoundStands(src, i);
    forall q | IsPunctuation(q) && |Spelling(q)| > |Spelling(TokenAt(src, i).kind)| ensures !PunctuationAt(src, i, q) {
      NoLonger(src, i, q);
    }
    ChosenMark(src, i, TokenAt(src, i).kind);
  }

  /** A character that begins marks, none of which stands here. */
  lemma NoCompound(src: string, i: nat)
    requires i < |src| && src[i] in "-<>!" && !IsPunctuation(TokenAt(src, i).kind)
    ensures forall k :: !PunctuationAt(src, i, k)
  {
    hide PunctuationAt;
    forall k | IsPunctuation(k) ensures !PunctuationAt(src, i, k) {
      MarkIs(src, i, k);
      if Spelling(k)[0] == src[i] {
        OtherGoesOn(src, i, k);
      }
    }
    NotAMark(src, i);
  }

  lemma NotAMark(src: string, i: nat)
    ensures forall k :: !IsPunctuation(k) ==> !PunctuationAt(src, i, k)
  {
  }

  lemma OtherGoesOn(src: string, i: nat, k: Kind)
    requires i < |src| && src[i] in "-<>!" && !IsPunctuation(TokenAt(src, i).kind) && IsPunctuation(k) && Spelling(k)[0] == src[i]
    ensures |Spelling(k)| == 2 && !At(src, i + 1, Spelling(k)[1])
  {
  }

  // ---- words and numbers ----

  lemma WordRuns(src: string, i: nat)
    requires i < |src|
    ensures RunOf(src, i + 1, RunEnd(src, i + 1, IsIdentContinue), IdentChars())
  {
    var j := RunEnd(src, i + 1, IsIdentContinue);
    forall m | i + 1 <= m < j ensures src[m] in IdentChars() {
      CharClasses(src[m]);
    }
    if j < |src| {
      CharClasses(src[j]);
    }
  }

  lemma NumberRuns(src: string, i: nat)
    requires i < |src|
    ensures RunOf(src, i + 1, RunEnd(src, i + 1, IsNumberContinue), NumberChars())
  {
    var j := RunEnd(src, i + 1, IsNumberContinue);
    forall m | i + 1 <= m < j ensures src[m] in NumberChars() {
      CharClasses(src[m]);
    }
    if j < |src| {
      CharClasses(src[j]);
    }
  }

  /** A token that is no mark. */
  lemma NoMarkClassified(src: string, i: nat)
    requires i < |src| && !IsPunctuation(TokenAt(src, i).kind) && forall k :: !PunctuationAt(src, i, k)
    ensures Classified(src, i, TokenAt(src, i))
  {
    hide PunctuationAt;
    hide LongestAt;
    hide RunOf;
    hide RunEnd;
    hide IdentChars;
    hide NumberChars;
    WordRuns(src, i);
    NumberRuns(src, i);
    KindOfOther(src, i);
  }

  /** What the first characters decide. */
  lemma KindByClass(src: string, i: nat)
    requires i < |src| && !IsPunctuation(TokenAt(src, i).kind)
    ensures
      var c := src[i];
      TokenAt(src, i) ==
        if c == '"' then Token(String, i, StringEnd(src, i + 1))
        else if IsDigit(c) || (c == '-' && i + 1 < |src| && IsDigit(src[i + 1])) then NumberToken(src, i, i + 1)
        else if IsIdentStart(c) || c == '-' || c == '<' || c == '>' then IdentToken(src, i, i + 1)
        else Token(Ident, i, i + 1)
  {
    hide RunEnd;
    hide StringEnd;
  }

  lemma KindOfOther(src: string, i: nat)
    requires i < |src| && !IsPunctuation(TokenAt(src, i).kind)
    ensures
      TokenAt(src, i) ==
        if src[i] == '"' then Token(String, i, StringEnd(src, i + 1))
        else if BeginsNumber(src, i) then NumberToken(src, i, i + 1)
        else if BeginsWord(src[i]) then IdentToken(src, i, i + 1)
        else Token(Ident, i, i + 1)
  {
    hide IsDigit;
    hide IsIdentStart;
    hide TokenAt;
    hide IdentStarts;
    CharClasses(src[i]);
    if i + 1 < |src| {
      CharClasses(src[i + 1]);
    }
    KindByClass(src, i);
  }

  /** Every token is what stands there: the longest mark, or else a literal, a number,
      a word, or one unknown character. */
  lemma TokenIsClassified(src: string, i: nat)
    requires i < |src|
    ensures Classified(src, i, TokenAt(src, i))
  {
    hide PunctuationAt;
    hide Classified;
    var c := src[i];
    if Simple(c).Some? {
      SimpleMark(src, i);
    } else if c in ".=-<|>&!" && IsPunctuation(TokenAt(src, i).kind) {
      CompoundMark(src, i);
    } else {
      if c in "-<>!" {
        NoCompound(src, i);
      } else {
        NoMark(src, i);
      }
      NoMarkClassified(src, i);
    }
  }

  /** The same of every token of a text, up to the one for its end. */
  lemma {:induction false} TokensAreClassified(src: string, i: nat, k: nat)
    requires i <= |src| && k < |Tokens(src, i)|
    ensures
      var t := Tokens(src, i)[k];
      if k == |Tokens(src, i)| - 1 then t == Token(Eof, |src|, |src|) else t.start < |src| && Classified(src, t.start, t)
    decreases |src| - i
  {
    hide TokenAt;
    hide Classified;
    var t := NextToken(src, i);
    if t.kind == Eof {
    } else if k == 0 {
      TokenIsClassified(src, t.start);
    } else {
      TokensAreClassified(src, t.end, k - 1);
      assert Tokens(src, i)[k] == Tokens(src, t.end)[k - 1];
    }
  }

  /** There is no other token that could stand there: the characters decide. */
  lemma ClassifiedOnce(src: string, i: nat, t: Token, u: Token)
    requires i < |src| && Classified(src, i, t) && Classified(src, i, u)
    ensures t == u
  {
    hide PunctuationAt;
    hide Spelling;
    if exists k :: PunctuationAt(src, i, k) {
      MarksDiffer(src, i, t.kind, u.kind);
    }
  }

  lemma MarksDiffer(src: string, i: nat, k: Kind, q: Kind)
    requires i < |src| && PunctuationAt(src, i, k) && PunctuationAt(src, i, q) && |Spelling(k)| == |Spelling(q)|
    ensures k == q
  {
    MarkIs(src, i, k);
    MarkIs(src, i, q);
    assert Spelling(k) == Spelling(q);
    SpelledOnce(k, q);
  }

  lemma SpelledOnce(k: Kind, q: Kind)
    requires IsPunctuation(k) && IsPunctuation(q) && Spelling(k) == Spelling(q)
    ensures k == q
  {
    assert |Spelling(k)| >= 1 && Spelling(k)[0] == Spelling(q)[0];
    if |Spelling(k)| >= 2 {
      assert Spelling(k)[1] == Spelling(q)[1];
    }
  }

  // ---- literals written and read ----

  /** A character inside a literal. */
  function Written(c: char): string {
    if c == '\n' then "\\n"
    else if c == '\r' then "\\r"
    else if c == '\t' then "\\t"
    else if c == '\0' then "\\0"
    else if c == '"' || c == '\\' then ['\\', c]
    else [c]
  }

  function WrittenAll(text: string): string {
    if text == [] then [] else Written(text[0]) + WrittenAll(text[1..])
  }

  lemma {:induction false} WrittenIsRead(text: string)
    ensures WellEscaped(WrittenAll(text)) && Unescape(WrittenAll(text)) == text
  {
    if text != [] {
      var w, rest := Written(text[0]), WrittenAll(text[1..]);
      WrittenIsRead(text[1..]);
      if |w| == 2 {
        assert (w + rest)[0] == '\\' && (w + rest)[1] == w[1] && (w + rest)[2..] == rest;
      } else {
        assert (w + rest)[0] == text[0] && (w + rest)[1..] == rest;
      }
      assert [text[0]] + text[1..] == text;
    }
  }

  lemma QuotedParts(src: string, start: nat, body: string)
    requires Stands(src, start, ['"'] + (body + ['"']))
    ensures
      var c := start + 1 + |body|;
      c < |src| && src[start] == '"' && src[c] == '"' && src[start + 1..c] == body
  {
    var whole, c := ['"'] + (body + ['"']), start + 1 + |body|;
    var part := src[start..start + |whole|];
    assert part[0] == '"' && part[1 + |body|] == '"' && part[1..1 + |body|] == body;
    assert src[start + 1..c] == part[1..1 + |body|];
  }

  /** Any text of at most 256 characters, written with its escapes between quotes, is
      one token wherever it stands, and is decoded to the text. */
  lemma LiteralRoundTrip(src: string, start: nat, text: string)
    requires |text| <= STRING_MAX && Stands(src, start, ['"'] + (WrittenAll(text) + ['"']))
    ensures
      var end := start + |WrittenAll(text)| + 2;
      TokenAt(src, start) == Token(String, start, end) && Decode(src, start, end) == Some(text)
  {
    hide Decode;
    hide Unescape;
    hide WrittenAll;
    hide WellEscaped;
    hide Stands;
    hide StringEnd;
    var body := WrittenAll(text);
    var c := start + 1 + |body|;
    QuotedParts(src, start, body);
    WrittenIsRead(text);
    assert ClosedAt(src, start + 1, c);
    StopsAtTheClose(src, start + 1, c);
    LexerAndDecoderAgree(src, start);
  }
}
