/** `JSON2.parse` reads every JSON text: the pre-escape keeps what a text says, and the gate lets it
    through. */
module JsonParsing {
  import opened Wrappers
  import opened JsonText
  import opened JsonGate
  import opened JsonScanner
  import opened JsonReader

  /** Units of the class `cx` stand in strings only. */
  predicate CxInStrings(quoted: bool, t: Text)
    decreases |t|
  {
    if t == [] then true
    else if !quoted then !IsCx(t[0]) && CxInStrings(t[0] == QUOTE, t[1..])
    else if t[0] == BACKSLASH then |t| < 2 || CxInStrings(true, t[2..])
    else CxInStrings(t[0] != QUOTE, t[1..])
  }

  // ----- the pre-escape, unit by unit

  lemma EscapedHead(t: Text)
    requires t != []
    ensures var e := PreEscape(t);
            && e != []
            && (!IsCx(t[0]) ==> e[0] == t[0] && e[1..] == PreEscape(t[1..]))
            && (IsCx(t[0]) ==> e[0] == BACKSLASH)
  {
  }

  lemma ReadUnicodeEscape(c: Code, t: Text)
    ensures var e := UnicodeEscape(c) + t;
            EscapeLen(e) == 6 && e[6..] == t && ReadBody(e) == Prepend(c, ReadBody(t))
  {
    hide HexDigit, HexValue, IsHex, IsDigit;
    HexRoundTrip(c);
    assert (UnicodeEscape(c) + t)[6..] == t;
  }

  lemma EscapedCx(t: Text)
    requires t != [] && IsCx(t[0])
    ensures var e := PreEscape(t);
            e != [] && e[0] == BACKSLASH && EscapeLen(e) == 6 && e[6..] == PreEscape(t[1..])
            && ReadBody(e) == Prepend(t[0], ReadBody(PreEscape(t[1..])))
  {
    hide UnicodeEscape, EscapeLen;
    ReadUnicodeEscape(t[0], PreEscape(t[1..]));
    assert UnicodeEscape(t[0])[0] == BACKSLASH by { UnicodeHead(t[0]); }
  }

  lemma UnicodeHead(c: Code)
    ensures UnicodeEscape(c) != [] && UnicodeEscape(c)[0] == BACKSLASH
  {
  }

  lemma HexDigitRoundTrip(d: int)
    requires 0 <= d < 16
    ensures IsHex(HexDigit(d)) && HexValue(HexDigit(d)) == d
  {
  }

  lemma Nibbles(c: int)
    ensures 4096 * (c / 4096) + 256 * (c / 256 % 16) + 16 * (c / 16 % 16) + c % 16 == c
  {
    var a := c / 16;
    var b := a / 16;
    assert c == 16 * a + c % 16 && a == 16 * b + a % 16;
    assert c / 256 == b && c / 4096 == b / 16;
  }

  lemma HexRoundTrip(c: Code)
    ensures var u := UnicodeEscape(c);
            && IsHex(u[2]) && IsHex(u[3]) && IsHex(u[4]) && IsHex(u[5])
            && 4096 * HexValue(u[2]) + 256 * HexValue(u[3]) + 16 * HexValue(u[4]) + HexValue(u[5]) == c
  {
    hide HexDigit, HexValue, IsHex;
    HexDigitRoundTrip(c / 4096);
    HexDigitRoundTrip(c / 256 % 16);
    HexDigitRoundTrip(c / 16 % 16);
    HexDigitRoundTrip(c % 16);
    Nibbles(c);
  }

  /** Units outside `cx` stay where they are. */
  lemma {:induction false} PrefixKept(t: Text, n: nat)
    requires n <= |t| && forall i | 0 <= i < n :: !IsCx(t[i])
    ensures var e := PreEscape(t);
            && n <= |e|
            && (forall i | 0 <= i < n :: e[i] == t[i])
            && e[n..] == PreEscape(t[n..])
            && (QUOTE !in t[..n] ==> CxInStrings(false, t) == CxInStrings(false, t[n..]))
  {
    hide IsCx;
    var e := PreEscape(t);
    assert t[0..] == t && e[0..] == e;
    if n > 0 {
      EscapedHead(t);
      PrefixKept(t[1..], n - 1);
      assert t[1..][n - 1..] == t[n..] && e[1..][n - 1..] == e[n..];
      assert t[..n] == [t[0]] + t[1..][..n - 1];
      forall i | 0 < i < n ensures e[i] == t[i] {
        assert e[1..][i - 1] == t[1..][i - 1];
      }
    }
  }

  /** The string at `t` and the one at `e` say the same, the second is one token, and what comes
      after them is the same up to the pre-escape. */
  ghost predicate SameBody(t: Text, e: Text) {
    var r := ReadBody(t);
    && r.Got?
    && CxInStrings(true, t) == CxInStrings(false, r.rest)
    && BodyLen(e) > 0 && e[BodyLen(e)..] == PreEscape(r.rest)
    && ReadBody(e) == Got(r.value, PreEscape(r.rest))
  }

  lemma SameBodyMore(t: Text, k: nat, e: Text, m: nat, c: Code)
    requires k <= |t| && ReadBody(t) == Prepend(c, ReadBody(t[k..])) && CxInStrings(true, t) == CxInStrings(true, t[k..])
    requires m <= |e| && ReadBody(e) == Prepend(c, ReadBody(e[m..]))
    requires BodyLen(e) == if BodyLen(e[m..]) == 0 then 0 else m + BodyLen(e[m..])
    requires SameBody(t[k..], e[m..])
    ensures SameBody(t, e)
  {
    hide CxInStrings, ReadBody, BodyLen, PreEscape;
    assert e[m..][BodyLen(e[m..])..] == e[m + BodyLen(e[m..])..];
  }

  lemma {:induction false} BodyKept(t: Text)
    requires ReadBody(t).Got?
    ensures SameBody(t, PreEscape(t))
    decreases |t|
  {
    hide IsCx, PreEscape, EscapeLen, EscapedUnit, SameBody;
    var e := PreEscape(t);
    EscapedHead(t);
    QuoteIsNotCx();
    if t[0] == BACKSLASH {
      EscapeKept(t);
      BodyKept(t[EscapeLen(t)..]);
      SameBodyMore(t, EscapeLen(t), e, EscapeLen(t), EscapedUnit(t));
    } else if t[0] != QUOTE {
      BodyKept(t[1..]);
      if IsCx(t[0]) {
        EscapedCx(t);
      }
      SameBodyMore(t, 1, e, if IsCx(t[0]) then 6 else 1, t[0]);
    } else {
      assert SameBody(t, e) by { SameEnd(t, e); }
    }
  }

  lemma SameEnd(t: Text, e: Text)
    requires t != [] && e != [] && t[0] == e[0] == QUOTE && e[1..] == PreEscape(t[1..])
    ensures SameBody(t, e)
  {
    hide PreEscape;
  }

  lemma QuoteIsNotCx()
    ensures !IsCx(QUOTE) && !IsCx(BACKSLASH) && !IsCx(LBRACKET) && !IsCx(RBRACKET) && !IsCx(LBRACE) && !IsCx(RBRACE)
    ensures !IsCx(COMMA) && !IsCx(COLON)
  {
  }

  /** An escape stays as it is, and the string goes on after it. */
  lemma EscapeKept(t: Text)
    requires t != [] && t[0] == BACKSLASH && EscapeLen(t) > 0
    ensures var e, k := PreEscape(t), EscapeLen(t);
            && e != [] && e[0] == BACKSLASH && EscapeLen(e) == k && e[k..] == PreEscape(t[k..])
            && EscapedUnit(e) == EscapedUnit(t)
            && CxInStrings(true, t) == CxInStrings(true, t[k..])
  {
    hide PreEscape, CxInStrings;
    EscapeUnits(t);
    PrefixKept(t, EscapeLen(t));
    EscapeInString(t);
  }

  lemma EscapeUnits(t: Text)
    requires EscapeLen(t) > 0
    ensures EscapeLen(t) == 2 || EscapeLen(t) == 6
    ensures forall i | 0 <= i < EscapeLen(t) :: !IsCx(t[i])
  {
  }

  lemma PlainInString(t: Text)
    requires t != [] && t[0] != QUOTE && t[0] != BACKSLASH
    ensures CxInStrings(true, t) == CxInStrings(true, t[1..])
  {
  }

  lemma EscapeInString(t: Text)
    requires t != [] && t[0] == BACKSLASH && EscapeLen(t) > 0
    ensures CxInStrings(true, t) == CxInStrings(true, t[EscapeLen(t)..])
  {
    assert CxInStrings(true, t) == CxInStrings(true, t[2..]);
    if EscapeLen(t) == 6 {
      hide CxInStrings;
      var a, b, c, d := t[2..], t[3..], t[4..], t[5..];
      assert a[1..] == b && b[1..] == c && c[1..] == d && d[1..] == t[6..];
      PlainInString(a);
      PlainInString(b);
      PlainInString(c);
      PlainInString(d);
    }
  }

  // ----- a text and its escaped form

  /** The scan lets the escaped text through exactly when the text keeps `cx` units in strings. */
  ghost predicate Agrees(open: bool, t: Text) {
    Scan(open, PreEscape(t)) <==> CxInStrings(false, t)
  }

  lemma {:induction false} SpaceAgrees(open: bool, t: Text)
    requires Agrees(open, SkipSpace(t))
    ensures Agrees(open, t)
    ensures CxInStrings(false, t) ==>
              && CxInStrings(false, SkipSpace(t))
              && SkipSpace(PreEscape(t)) == PreEscape(SkipSpace(t))
  {
    hide IsCx, PreEscape, RawTokenLen, IsSpace;
    var e := PreEscape(t);
    BracketsAndSpaces();
    if t == [] {
      assert e == [] by { EscapedNothing(); }
    } else if IsSpace(t[0]) {
      EscapedHead(t);
      assert t[1..][SpaceRun(t[1..])..] == t[SpaceRun(t)..];
      SpaceAgrees(open, t[1..]);
      if IsCx(t[0]) {
        BackslashStops(e);
      } else if CxInStrings(false, t) {
        assert e[1..][SpaceRun(e[1..])..] == e[SpaceRun(e)..];
      }
    } else {
      EscapedHead(t);
      assert SkipSpace(t) == t;
      assert SkipSpace(e) == e;
    }
  }

  lemma EscapedNothing()
    ensures PreEscape([]) == []
  {
  }

  lemma BackslashStops(e: Text)
    requires e != [] && e[0] == BACKSLASH
    ensures !Scan(true, e) && !Scan(false, e)
  {
    NoOtherToken(e);
  }

  lemma PunctuationAgrees(open: bool, t: Text)
    requires t != [] && t[0] in {LBRACKET, RBRACKET, LBRACE, RBRACE, COMMA, COLON} && (t[0] == LBRACKET ==> open)
    requires Agrees(OpensAfter(open, t[0]), t[1..])
    ensures Agrees(open, t)
    ensures CxInStrings(false, t) == CxInStrings(false, t[1..])
    ensures PreEscape(t) != [] && PreEscape(t)[0] == t[0] && PreEscape(t)[1..] == PreEscape(t[1..])
    ensures SkipSpace(PreEscape(t)) == PreEscape(t)
  {
    hide IsCx, PreEscape, RawTokenLen, IsSpace;
    QuoteIsNotCx();
    EscapedHead(t);
    assert !IsSpace(t[0]) by { NoSpace(t[0]); }
  }

  lemma NoSpace(c: Code)
    requires c in {LBRACKET, RBRACKET, LBRACE, RBRACE, COMMA, COLON, QUOTE, BACKSLASH}
    ensures !IsSpace(c)
  {
  }

  lemma StringAgrees(open: bool, t: Text)
    requires t != [] && t[0] == QUOTE && ReadBody(t[1..]).Got? && Agrees(false, ReadBody(t[1..]).rest)
    ensures var r := ReadBody(t[1..]);
            && Agrees(open, t)
            && CxInStrings(false, t) == CxInStrings(false, r.rest)
            && PreEscape(t) != [] && PreEscape(t)[0] == QUOTE
            && ReadBody(PreEscape(t)[1..]) == Got(r.value, PreEscape(r.rest))
  {
    hide IsCx, PreEscape, IsSpace;
    QuoteIsNotCx();
    NoSpace(QUOTE);
    EscapedHead(t);
    BodyKept(t[1..]);
    var e := PreEscape(t);
    assert e[1..][BodyLen(e[1..])..] == e[1 + BodyLen(e[1..])..];
  }

  /** A token that the pre-escape leaves alone. */
  lemma TokenAgrees(open: bool, t: Text, n: nat)
    requires 0 < n <= |t| && (forall i | 0 <= i < n :: !IsCx(t[i]) && t[i] != QUOTE) && !IsPunctuation(t[0])
    requires RawTokenLen(PreEscape(t)) == n && Agrees(false, t[n..])
    ensures Agrees(open, t) && CxInStrings(false, t) == CxInStrings(false, t[n..])
  {
    hide IsCx, PreEscape, RawTokenLen, IsPunctuation, CxInStrings;
    PrefixKept(t, n);
  }

  lemma LiteralAgrees(open: bool, w: Text, t: Text)
    requires w == NULL_TEXT || w == TRUE_TEXT || w == FALSE_TEXT
    requires w <= t && Agrees(false, t[|w|..])
    ensures Agrees(open, t) && CxInStrings(false, t) == CxInStrings(false, t[|w|..])
    ensures w <= PreEscape(t) && PreEscape(t)[|w|..] == PreEscape(t[|w|..])
  {
    hide PreEscape, CxInStrings, Scan, Agrees;
    LiteralUnits();
    assert forall i | 0 <= i < |w| :: t[i] == w[i];
    assert forall i | 0 <= i < |w| :: !IsCx(w[i]) && w[i] != QUOTE;
    PrefixKept(t, |w|);
    var e := PreEscape(t);
    assert w <= e;
    assert e[0] == w[0] && t[0] == w[0];
    LiteralToken(w, e);
    TokenAgrees(open, t, |w|);
  }

  lemma LiteralToken(w: Text, e: Text)
    requires w == NULL_TEXT || w == TRUE_TEXT || w == FALSE_TEXT
    requires w <= e
    ensures RawTokenLen(e) == |w| && !IsPunctuation(e[0])
  {
    assert e[0] == w[0];
    if w != TRUE_TEXT {
      NoLiteral(TRUE_TEXT, e);
    }
    if w == NULL_TEXT {
      NoLiteral(FALSE_TEXT, e);
    }
  }

  lemma {:induction false} DigitsKept(t: Text)
    ensures var n, e := DigitRun(t), PreEscape(t);
            && n == DigitRun(e) && e[n..] == PreEscape(t[n..]) && e[..n] == t[..n]
            && CxInStrings(false, t) == CxInStrings(false, t[n..])
            && forall i | 0 <= i < n :: IsDigit(t[i])
  {
    hide PreEscape;
    var n, e := DigitRun(t), PreEscape(t);
    if t == [] {
      EscapedNothing();
    } else {
      EscapedHead(t);
      if IsDigit(t[0]) {
        var m := DigitRun(t[1..]);
        DigitsKept(t[1..]);
        assert e[1..][m..] == e[n..] && t[1..][m..] == t[n..];
        assert t[..n] == [t[0]] + t[1..][..m] && e[..n] == [e[0]] + e[1..][..m];
        forall i | 0 < i < n ensures IsDigit(t[i]) {
          assert t[i] == t[1..][i - 1];
        }
      } else {
        assert e[0..] == e && t[0..] == t;
      }
    }
  }

  lemma EndKept(t: Text)
    requires EndsNumber(t)
    ensures EndsNumber(PreEscape(t)) && TailLen(PreEscape(t)) == 0
  {
    hide PreEscape;
    if t == [] {
      EscapedNothing();
    } else {
      EscapedHead(t);
    }
    assert PreEscape(t)[0..] == PreEscape(t);
  }

  lemma UnsignedKept(t: Text)
    requires DigitRun(t) > 0 && EndsNumber(t[DigitRun(t)..])
    ensures var n, e := DigitRun(t), PreEscape(t);
            && UnsignedLen(e) == n && EndsNumber(e[n..])
  {
    hide DigitRun, TailLen, EndsNumber, PreEscape;
    DigitsKept(t);
    EndKept(t[DigitRun(t)..]);
  }

  /** A number is read as before and is one token. */
  lemma NumberAgrees(open: bool, t: Text)
    requires ReadNumber(t).Got? && Agrees(false, ReadNumber(t).rest)
    ensures var r := ReadNumber(t);
            && Agrees(open, t)
            && CxInStrings(false, t) == CxInStrings(false, r.rest)
            && ReadNumber(PreEscape(t)) == Got(r.value, PreEscape(r.rest))
  {
    hide PreEscape, CxInStrings, Agrees, ReadNumber, RawTokenLen, IsCx, IsDigit, IsPunctuation;
    var n := NumberKept(t);
    TokenAgrees(open, t, n);
  }

  /** The units of a number, `n` of them, stay and are read as before. */
  lemma NumberKept(t: Text) returns (n: nat)
    requires ReadNumber(t).Got?
    ensures var e, r := PreEscape(t), ReadNumber(t);
            && 0 < n <= |t| && r.rest == t[n..] && ReadNumber(e) == Got(r.value, PreEscape(r.rest))
            && RawTokenLen(e) == n && !IsPunctuation(t[0])
            && forall i | 0 <= i < n :: !IsCx(t[i]) && t[i] != QUOTE
  {
    hide DigitRun, UnsignedLen, EndsNumber, PreEscape, DigitsValue, RawTokenLen, IsCx, IsPunctuation;
    var e := PreEscape(t);
    var s := NumberSign(t);
    var u := t[s..];
    var d := DigitRun(u);
    UnsignedKept(u);
    DigitsKept(u);
    SignKept(t);
    n := s + d;
    assert t[s..][d..] == t[n..] && e[s..][d..] == e[n..];
    forall i | 0 <= i < n ensures !IsCx(t[i]) && t[i] != QUOTE {
      assert i >= s ==> t[i] == u[i - s];
      DigitIsPlain(t[i]);
    }
    DigitIsPlain(t[0]);
    assert e[s] == t[s] by { assert e[s..][..d][0] == u[..d][0]; }
    NumberToken(e, s, d);
  }

  function NumberSign(t: Text): (s: nat)
    ensures s <= |t|
  {
    if t != [] && t[0] == MINUS then 1 else 0
  }

  lemma DigitIsPlain(c: Code)
    requires IsDigit(c) || c == MINUS
    ensures !IsCx(c) && c != QUOTE && !IsPunctuation(c) && c != TRUE_TEXT[0] && c != FALSE_TEXT[0] && c != NULL_TEXT[0]
  {
  }

  lemma SignKept(t: Text)
    ensures NumberSign(PreEscape(t)) == NumberSign(t)
    ensures PreEscape(t)[NumberSign(t)..] == PreEscape(t[NumberSign(t)..])
  {
    hide PreEscape;
    if t == [] {
      EscapedNothing();
    } else {
      EscapedHead(t);
    }
    assert t[0..] == t && PreEscape(t)[0..] == PreEscape(t);
  }

  lemma NumberToken(e: Text, s: nat, d: nat)
    requires s == NumberSign(e) && d > 0 && UnsignedLen(e[s..]) == d
    requires IsDigit(e[0]) || e[0] == MINUS
    ensures RawTokenLen(e) == s + d
  {
    hide UnsignedLen;
    DigitIsPlain(e[0]);
    NoLiteral(TRUE_TEXT, e);
    NoLiteral(FALSE_TEXT, e);
    NoLiteral(NULL_TEXT, e);
    assert e[0..] == e;
  }

  lemma ScalarAgrees(open: bool, t: Text)
    requires t != [] && ReadScalar(t).Got? && Agrees(false, ReadScalar(t).rest)
    ensures var r := ReadScalar(t);
            && Agrees(open, t)
            && CxInStrings(false, t) == CxInStrings(false, r.rest)
            && ReadScalar(PreEscape(t)) == Got(r.value, PreEscape(r.rest))
  {
    hide PreEscape, CxInStrings, Agrees, ReadBody, ReadNumber;
    var e := PreEscape(t);
    EscapedHead(t);
    if t[0] == QUOTE {
      StringAgrees(open, t);
    } else if NULL_TEXT <= t {
      LiteralAgrees(open, NULL_TEXT, t);
    } else if TRUE_TEXT <= t {
      LiteralAgrees(open, TRUE_TEXT, t);
      NoLiteral(NULL_TEXT, e);
    } else if FALSE_TEXT <= t {
      LiteralAgrees(open, FALSE_TEXT, t);
      NoLiteral(NULL_TEXT, e);
      NoLiteral(TRUE_TEXT, e);
    } else {
      NumberAgrees(open, t);
      NumberHead(e);
      NoLiteral(NULL_TEXT, e);
      NoLiteral(TRUE_TEXT, e);
      NoLiteral(FALSE_TEXT, e);
    }
  }

  lemma NumberHead(e: Text)
    requires ReadNumber(e).Got?
    ensures e != [] && (IsDigit(e[0]) || e[0] == MINUS)
  {
    if e != [] {
      assert e[0..] == e;
    }
  }

  // ----- values

  lemma KeyKept(open: bool, t: Text)
    requires ReadKey(t).Got? && Agrees(true, ReadKey(t).rest)
    ensures var r := ReadKey(t);
            && Agrees(open, t)
            && (CxInStrings(false, t) ==>
                  CxInStrings(false, r.rest) && ReadKey(PreEscape(t)) == Got(r.value, PreEscape(r.rest)))
  {
    hide PreEscape, CxInStrings, Agrees, ReadBody, SkipSpace;
    var u := SkipSpace(t);
    var rest := ReadBody(u[1..]).rest;
    var w := SkipSpace(rest);
    PunctuationAgrees(false, w);
    SpaceAgrees(false, rest);
    StringAgrees(open, u);
    SpaceAgrees(open, t);
  }

  lemma {:induction false} ValueKept(t: Text)
    requires ReadValue(t).Got? && Agrees(false, ReadValue(t).rest)
    ensures var r := ReadValue(t);
            && Agrees(true, t)
            && (CxInStrings(false, t) ==>
                  CxInStrings(false, r.rest) && ReadValue(PreEscape(t)) == Got(r.value, PreEscape(r.rest)))
    decreases |t|, 0
  {
    hide PreEscape, CxInStrings, Agrees, ReadScalar, SkipSpace, ReadItems, ReadProps, IsCx;
    var u := SkipSpace(t);
    var rest := ReadValue(t).rest;
    EscapedHead(u);
    BracketsAreNotCx();
    if u[0] == LBRACKET || u[0] == LBRACE {
      var close := if u[0] == LBRACKET then RBRACKET else RBRACE;
      var w := SkipSpace(u[1..]);
      assert |u[1..]| < |t|;
      if w != [] && w[0] == close {
        PunctuationAgrees(u[0] == LBRACKET, w);
        SpaceAgrees(u[0] == LBRACKET, u[1..]);
      } else {
        if u[0] == LBRACKET {
          ItemsKept(u[1..]);
        } else {
          PropsKept(u[1..]);
        }
        SpaceAfter(u[1..], close);
      }
      PunctuationAgrees(true, u);
    } else {
      ScalarAgrees(true, u);
      ScalarHead(u);
    }
    SpaceAgrees(true, t);
  }

  lemma BracketsAreNotCx()
    ensures !IsCx(LBRACKET) && !IsCx(LBRACE) && !IsCx(RBRACKET) && !IsCx(RBRACE) && !IsCx(COMMA)
  {
  }

  /** White space ends at the same unit after the pre-escape, unless it is one of `cx`. */
  lemma {:induction false} SpaceAfter(t: Text, c: Code)
    requires SkipSpace(t) == [] || SkipSpace(t)[0] != c
    requires c == RBRACKET || c == RBRACE
    ensures var w := SkipSpace(PreEscape(t)); w == [] || w[0] != c
  {
    hide PreEscape, IsCx;
    var e := PreEscape(t);
    if t == [] {
      EscapedNothing();
    } else {
      EscapedHead(t);
      if IsSpace(t[0]) && !IsCx(t[0]) {
        assert t[1..][SpaceRun(t[1..])..] == t[SpaceRun(t)..];
        assert e[1..][SpaceRun(e[1..])..] == e[SpaceRun(e)..];
        SpaceAfter(t[1..], c);
      } else {
        assert SkipSpace(e) == e;
        assert !IsSpace(t[0]) ==> SkipSpace(t) == t;
      }
    }
  }

  lemma ScalarHead(u: Text)
    requires u != [] && ReadScalar(u).Got?
    ensures !IsSpace(u[0])
  {
    if u[0] != QUOTE && !(NULL_TEXT <= u) && !(TRUE_TEXT <= u) && !(FALSE_TEXT <= u) {
      NumberHead(u);
    }
  }

  lemma {:induction false} ItemsKept(t: Text)
    requires ReadItems(t).Got? && Agrees(false, ReadItems(t).rest)
    ensures var r := ReadItems(t);
            && Agrees(true, t)
            && (CxInStrings(false, t) ==>
                  CxInStrings(false, r.rest) && ReadItems(PreEscape(t)) == Got(r.value, PreEscape(r.rest)))
    decreases |t|, 1
  {
    hide PreEscape, CxInStrings, Agrees, ReadValue, SkipSpace;
    var rest := ReadValue(t).rest;
    var u := SkipSpace(rest);
    if u[0] == COMMA {
      ItemsKept(u[1..]);
    }
    PunctuationAgrees(false, u);
    SpaceAgrees(false, rest);
    ValueKept(t);
  }

  lemma {:induction false} PropsKept(t: Text)
    requires ReadProps(t).Got? && Agrees(false, ReadProps(t).rest)
    ensures var r := ReadProps(t);
            && Agrees(false, t) && Agrees(true, t)
            && (CxInStrings(false, t) ==>
                  CxInStrings(false, r.rest) && ReadProps(PreEscape(t)) == Got(r.value, PreEscape(r.rest)))
    decreases |t|, 1
  {
    hide PreEscape, CxInStrings, Agrees, ReadValue, SkipSpace, ReadKey, HasKey;
    var after := ReadKey(t).rest;
    var rest := ReadValue(after).rest;
    var u := SkipSpace(rest);
    if u[0] == COMMA {
      PropsKept(u[1..]);
    }
    PunctuationAgrees(false, u);
    SpaceAgrees(false, rest);
    ValueKept(after);
    KeyKept(true, t);
    KeyKept(false, t);
  }

  // ----- the whole of `parse`

  /** Every text that reads as a JSON value is parsed to that value, unless it has a unit of the class
      `cx` outside its strings, and then it is refused; and a text without such units is parsed only
      if it reads as a JSON value. */
  lemma ParseReads(t: Text)
    ensures ReadText(t).Some? ==> Parse(t) == if CxInStrings(false, t) then Parsed(ReadText(t).value) else Rejected
    ensures NoCx(t) && Parse(t).Parsed? ==> ReadText(t) == Some(Parse(t).value)
  {
    hide PreEscape, Scan, SkipSpace, CxInStrings, Accepts, ReadValue;
    if ReadText(t).Some? {
      var rest := ReadValue(t).rest;
      assert Agrees(false, []) by { EmptyAgrees(); }
      SpaceAgrees(false, rest);
      ValueKept(t);
      GateIsScan(PreEscape(t));
      assert PreEscape([]) == [] by { EscapedNothing(); }
    }
    if NoCx(t) {
      PreEscapeNothing(t);
    }
  }

  lemma EmptyAgrees()
    ensures Agrees(false, [])
  {
  }

  lemma PreEscapeNothing(t: Text)
    requires NoCx(t)
    ensures PreEscape(t) == t
    ensures CxInStrings(false, t)
  {
    PrefixKept(t, |t|);
    assert PreEscape(t)[..|t|] == t;
    assert PreEscape([]) == [];
    NoCxAnywhere(false, t);
  }

  lemma {:induction false} NoCxAnywhere(quoted: bool, t: Text)
    requires NoCx(t)
    ensures CxInStrings(quoted, t)
    decreases |t|
  {
    hide IsCx;
    if t != [] {
      NoCxAnywhere(t[0] == QUOTE, t[1..]);
      NoCxAnywhere(t[0] != QUOTE, t[1..]);
      if |t| > 1 {
        NoCxAnywhere(true, t[2..]);
      }
    }
  }
}
