/** The tokens cover the text in order with only blanks and comments between them,
    and the lexer and the decoder agree on where a string literal ends. */
module LexerTheorems {
  import opened Ir
  import opened Lexer

  // ---- gaps ----

  /** A comment that begins at `h` reaches `k`: no line ends before it. */
  ghost predicate InComment(src: string, h: nat, k: nat) {
    h <= k < |src| && src[h] == '#' && forall m :: h <= m < k ==> src[m] != '\n'
  }

  /** The character at `k` is a blank or in a comment that begins at or after
      `from`. */
  ghost predicate Skipped(src: string, from: nat, k: nat) {
    k < |src| && (IsBlank(src[k]) || exists h :: from <= h && InComment(src, h, k))
  }

  ghost predicate IsGap(src: string, from: nat, to: nat) {
    forall k {:trigger Skipped(src, from, k)} :: from <= k < to ==> Skipped(src, from, k)
  }

  lemma LaterGap(src: string, from: nat, later: nat, k: nat)
    requires from <= later && Skipped(src, later, k)
    ensures Skipped(src, from, k)
  {
    if !IsBlank(src[k]) {
      var h :| later <= h && InComment(src, h, k);
    }
  }

  /** What is skipped is blanks and comments, and it is all there is of them. */
  lemma {:induction false} SkipsAGap(src: string, i: nat)
    requires i <= |src|
    ensures IsGap(src, i, Skip(src, i))
    ensures Skip(src, i) < |src| ==> !IsBlank(src[Skip(src, i)]) && src[Skip(src, i)] != '#'
    decreases |src| - i
  {
    var b := RunEnd(src, i, IsBlank);
    if At(src, b, '#') {
      var c := CommentEnd(src, b);
      SkipsAGap(src, c);
      forall k | i <= k < Skip(src, i) ensures Skipped(src, i, k) {
        if k < b {
        } else if k < c {
          assert InComment(src, b, k);
        } else {
          assert Skipped(src, c, k);
          LaterGap(src, i, c, k);
        }
      }
    }
  }

  // ---- all the tokens ----

  function Tokens(src: string, i: nat): (ts: seq<Token>)
    requires i <= |src|
    ensures ts != []
    decreases |src| - i
  {
    var t := NextToken(src, i);
    if t.kind == Eof then [t] else [t] + Tokens(src, t.end)
  }

  /** Where the gap before token `k` begins. */
  function Before(ts: seq<Token>, i: nat, k: nat): nat
    requires k < |ts|
  {
    if k == 0 then i else ts[k - 1].end
  }

  /** Token `k` is not empty unless it is the last, which ends the text, and what
      lies before it is a gap. */
  ghost predicate InPlace(src: string, ts: seq<Token>, i: nat, k: nat)
    requires k < |ts|
  {
    && Before(ts, i, k) <= ts[k].start <= ts[k].end <= |src|
    && IsGap(src, Before(ts, i, k), ts[k].start)
    && (if k == |ts| - 1 then ts[k] == Token(Eof, |src|, |src|) else ts[k].kind != Eof && ts[k].start < ts[k].end)
  }

  /** The tokens of a text are in order, apart, not empty up to the one for its
      end, and everything between them is blanks and comments. */
  lemma {:induction false} TokensCoverTheText(src: string, i: nat, k: nat)
    requires i <= |src| && k < |Tokens(src, i)|
    ensures InPlace(src, Tokens(src, i), i, k)
    decreases |src| - i
  {
    hide TokenAt;
    var t, ts := NextToken(src, i), Tokens(src, i);
    SkipsAGap(src, i);
    if t.kind != Eof && k > 0 {
      TokensCoverTheText(src, t.end, k - 1);
      assert ts[k] == Tokens(src, t.end)[k - 1];
      assert k > 1 ==> ts[k - 1] == Tokens(src, t.end)[k - 2];
    }
  }

  /** The character at `p` is in token `k`, or it is in the gap before it and is a
      blank or in a comment that begins in that gap. */
  ghost predicate AtToken(src: string, ts: seq<Token>, i: nat, k: nat, p: nat)
    requires k < |ts|
  {
    && Before(ts, i, k) <= p
    && (ts[k].start <= p < ts[k].end || (p < ts[k].start && Skipped(src, Before(ts, i, k), p)))
  }

  /** Every character is in a token or skipped in the gap before one. */
  lemma {:induction false} NothingIsLost(src: string, i: nat, p: nat) returns (k: nat)
    requires i <= p < |src|
    ensures k < |Tokens(src, i)| && AtToken(src, Tokens(src, i), i, k, p)
    decreases |src| - i
  {
    hide TokenAt;
    var t, ts := NextToken(src, i), Tokens(src, i);
    SkipsAGap(src, i);
    assert ts[0] == t;
    if p < t.start {
      k := 0;
      assert Skipped(src, i, p);
    } else if p < t.end {
      k := 0;
    } else {
      var j := NothingIsLost(src, t.end, p);
      k := j + 1;
      assert ts[k] == Tokens(src, t.end)[j];
      assert j > 0 ==> ts[j] == Tokens(src, t.end)[j - 1];
    }
  }

  // ---- string literals ----

  /** The inside of a literal: characters other than quotes and backslashes, and
      backslashes with a character each. */
  predicate WellEscaped(body: string) {
    body == [] ||
    (if body[0] == '\\' then |body| >= 2 && WellEscaped(body[2..]) else body[0] != '"' && WellEscaped(body[1..]))
  }

  /** What the inside of a literal stands for. */
  function Unescape(body: string): string
    requires WellEscaped(body)
  {
    if body == [] then []
    else if body[0] == '\\' then [Escaped(body[1])] + Unescape(body[2..])
    else [body[0]] + Unescape(body[1..])
  }

  /** The literal whose inside begins at `i` is closed by the quote at `c`. */
  predicate ClosedAt(src: string, i: nat, c: nat) {
    i <= c < |src| && src[c] == '"' && WellEscaped(src[i..c])
  }

  lemma Escapes(src: string, i: nat, c: nat)
    requires i < c <= |src|
    ensures src[i] == '\\' ==> (WellEscaped(src[i..c]) <==> i + 2 <= c && WellEscaped(src[i + 2..c]))
    ensures src[i] != '\\' ==> (WellEscaped(src[i..c]) <==> src[i] != '"' && WellEscaped(src[i + 1..c]))
  {
    var body := src[i..c];
    assert body[1..] == src[i + 1..c];
    if i + 2 <= c {
      assert body[2..] == src[i + 2..c];
    }
  }

  /** A closing quote is where the lexer stops: there is at most one. */
  lemma {:induction false} StopsAtTheClose(src: string, i: nat, c: nat)
    requires ClosedAt(src, i, c)
    ensures StringEnd(src, i) == c + 1
    decreases c - i
  {
    if i < c {
      Escapes(src, i, c);
      if src[i] == '\\' {
        StopsAtTheClose(src, i + 2, c);
      } else {
        StopsAtTheClose(src, i + 1, c);
      }
    }
  }

  /** The lexer stops behind a closing quote, or at the end of the text. */
  lemma {:induction false} StopsNowhereElse(src: string, i: nat)
    requires i <= |src|
    ensures StringEnd(src, i) == |src| || (StringEnd(src, i) > 0 && ClosedAt(src, i, StringEnd(src, i) - 1))
    decreases |src| - i
  {
    if i < |src| && src[i] != '"' {
      var next := if src[i] == '\\' && i + 1 < |src| then i + 2 else i + 1;
      StopsNowhereElse(src, next);
      if StringEnd(src, i) != |src| {
        Escapes(src, i, StringEnd(src, i) - 1);
      }
    } else if i < |src| {
      assert src[i..i] == [];
    }
  }

  /** A token is a closed literal exactly if some quote closes it, and then it is
      the last character of the token. */
  lemma ClosedExactly(src: string, i: nat)
    requires i <= |src|
    ensures (exists c :: ClosedAt(src, i, c)) <==> StringEnd(src, i) > 0 && ClosedAt(src, i, StringEnd(src, i) - 1)
    ensures (forall c :: !ClosedAt(src, i, c)) ==> StringEnd(src, i) == |src|
  {
    StopsNowhereElse(src, i);
    if c :| ClosedAt(src, i, c) {
      StopsAtTheClose(src, i, c);
    }
  }

  // ---- the decoder on a token ----

  /** On the rest of a well-escaped inside the decoder gives what it stands for, if
      it fits. */
  lemma {:induction false} DecodesTheInside(s: string, i: nat, out: string)
    requires 0 < i < |s| && |out| <= STRING_MAX && WellEscaped(s[i..|s| - 1])
    ensures
      var rest := Unescape(s[i..|s| - 1]);
      DecodeFrom(s, i, out) == if |out| + |rest| <= STRING_MAX then Some(out + rest) else None
    decreases |s| - i
  {
    hide Escaped;
    var end := |s| - 1;
    var body := s[i..end];
    if i == end {
      assert out + [] == out;
    } else {
      Escapes(s, i, end);
      var k := if s[i] == '\\' then 2 else 1;
      var c := if s[i] == '\\' then Escaped(s[i + 1]) else s[i];
      assert body[k..] == s[i + k..end];
      assert Unescape(body) == [c] + Unescape(s[i + k..end]);
      if |out| < STRING_MAX {
        DecodesTheInside(s, i + k, out + [c]);
        assert (out + [c]) + Unescape(s[i + k..end]) == out + Unescape(body);
      }
    }
  }

  /** If the lexer ran to the end of the text without a closing quote, a quote at
      the very end was taken by a backslash, and the decoder fails on it. */
  lemma {:induction false} UnclosedFails(src: string, start: nat, i: nat, out: string)
    requires start < i < |src| && src[|src| - 1] == '"'
    requires StringEnd(src, i) == |src| && !ClosedAt(src, i, |src| - 1)
    ensures DecodeFrom(src[start..], i - start, out) == None
    decreases |src| - i
  {
    hide Escaped;
    var s, last := src[start..], |src| - 1;
    assert s[i - start] == src[i] && |s| == |src| - start;
    assert src[i..i] == [];
    if i != last {
      Escapes(src, i, last);
      if src[i] != '\\' {
        UnclosedFails(src, start, i + 1, out + [src[i]]);
      } else if i + 2 < |src| {
        UnclosedFails(src, start, i + 2, out + [Escaped(s[i + 1 - start])]);
      }
    }
  }

  /** On every string token the decoder succeeds exactly if the token was closed by
      an unescaped quote and its inside stands for at most 256 bytes, and then it
      gives those bytes. */
  lemma LexerAndDecoderAgree(src: string, start: nat)
    requires start < |src| && src[start] == '"'
    ensures TokenAt(src, start).kind == String
    ensures
      var end := TokenAt(src, start).end;
      if ClosedAt(src, start + 1, end - 1) && |Unescape(src[start + 1..end - 1])| <= STRING_MAX
      then Decode(src, start, end) == Some(Unescape(src[start + 1..end - 1]))
      else Decode(src, start, end) == None
  {
    hide DecodeFrom;
    var end := TokenAt(src, start).end;
    assert end == StringEnd(src, start + 1);
    var s := src[start..end];
    if ClosedAt(src, start + 1, end - 1) {
      assert s[1..|s| - 1] == src[start + 1..end - 1];
      DecodesTheInside(s, 1, "");
      assert "" + Unescape(src[start + 1..end - 1]) == Unescape(src[start + 1..end - 1]);
    } else {
      StopsNowhereElse(src, start + 1);
      assert end == |src| && s == src[start..];
      if start + 1 < |src| && src[|src| - 1] == '"' {
        UnclosedFails(src, start, start + 1, "");
      }
    }
  }
}
