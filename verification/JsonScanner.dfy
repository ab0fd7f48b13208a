/** The three rewriting passes of the gate are one left-to-right scan: a text is accepted exactly
    when it is a sequence of tokens, punctuation and white space in which a run of opening
    brackets only follows the start, a ':' or a ','. */
module JsonScanner {
  import opened JsonText
  import opened JsonGate

  /** The length of a string after its opening quotation mark, with the closing one; 0 if there is none. */
  function BodyLen(t: Text): (n: nat)
    ensures n <= |t|
  {
    if t == [] || t[0] == NL || t[0] == CR then 0
    else if t[0] == QUOTE then 1
    else if t[0] == BACKSLASH && EscapeLen(t) == 0 then 0
    else
      var k := if t[0] == BACKSLASH then EscapeLen(t) else 1;
      var n := BodyLen(t[k..]);
      if n == 0 then 0 else k + n
  }

  /** The token at the start of an unmarked text. */
  function RawTokenLen(t: Text): (n: nat)
    ensures n <= |t|
  {
    if t != [] && t[0] == QUOTE then
      if BodyLen(t[1..]) == 0 then 0 else 1 + BodyLen(t[1..])
    else if TRUE_TEXT <= t then 4
    else if FALSE_TEXT <= t then 5
    else if NULL_TEXT <= t then 4
    else NumberLen(t)
  }

  predicate IsPunctuation(c: Code) {
    c in {LBRACKET, RBRACKET, LBRACE, RBRACE, COMMA, COLON} || IsSpace(c)
  }

  /** May a run of opening brackets go on after this unit? */
  function OpensAfter(open: bool, c: Code): bool {
    if c == COLON || c == COMMA then true
    else if c == LBRACKET || IsSpace(c) then open
    else false
  }

  predicate Scan(open: bool, t: Text)
    decreases |t|
  {
    if t == [] then true
    else if IsPunctuation(t[0]) then (t[0] == LBRACKET ==> open) && Scan(OpensAfter(open, t[0]), t[1..])
    else RawTokenLen(t) > 0 && Scan(false, t[RawTokenLen(t)..])
  }

  // ----- the third pass

  /** What is left to scan after the second pass. */
  predicate ScanMarks(open: bool, t: Text)
    decreases |t|
  {
    if t == [] then true
    else IsPunctuation(t[0]) && (t[0] == LBRACKET ==> open) && ScanMarks(OpensAfter(open, t[0]), t[1..])
  }

  lemma {:induction false} ScanSpaces(open: bool, t: Text)
    ensures ScanMarks(open, t) == ScanMarks(open, t[SpaceRun(t)..])
  {
    if t != [] && IsSpace(t[0]) {
      ScanSpaces(open, t[1..]);
      assert t[1..][SpaceRun(t[1..])..] == t[SpaceRun(t)..];
    } else {
      assert t[0..] == t;
    }
  }

  lemma {:induction false} SpacesEnd(t: Text)
    ensures SpaceRun(t) < |t| ==> !IsSpace(t[SpaceRun(t)])
  {
    if t != [] && IsSpace(t[0]) {
      SpacesEnd(t[1..]);
    }
  }

  /** A run of brackets is scanned through, and nothing of one is left after it. */
  lemma {:induction false} ScanRun(t: Text)
    ensures ScanMarks(true, t) == ScanMarks(false, t[BracketRun(t)..])
    decreases |t|
  {
    hide IsSpace;
    BracketsAndSpaces();
    var n := SpaceRun(t);
    SpacesEnd(t);
    ScanSpaces(true, t);
    ScanSpaces(false, t);
    if n < |t| && t[n] == LBRACKET {
      var more := t[n + 1..];
      assert t[n..][1..] == more;
      ScanRun(more);
      assert more[BracketRun(more)..] == t[BracketRun(t)..];
    } else {
      assert t[0..] == t;
      if n < |t| {
        assert OpensAfter(true, t[n]) == OpensAfter(false, t[n]);
      }
    }
  }

  lemma BracketsAndSpaces()
    ensures !IsSpace(LBRACKET) && !IsSpace(COLON) && !IsSpace(COMMA) && !IsSpace(QUOTE) && !IsSpace(BACKSLASH) && !IsSpace(AT)
    ensures forall c: Code | IsSpace(c) :: IsFinal(c) && IsPunctuation(c)
  {
  }

  lemma {:induction false} DropIsScan(t: Text)
    ensures AllFinal(DropOpens(t)) == ScanMarks(false, t)
    decreases |t|
  {
    hide IsSpace, BracketRun;
    BracketsAndSpaces();
    if t != [] {
      if t[0] == COLON || t[0] == COMMA {
        ScanRun(t[1..]);
        var n := BracketRun(t[1..]);
        assert t[1..][n..] == t[1 + n..];
        DropIsScan(t[1 + n..]);
        AllFinalCons(t[0], DropOpens(t[1 + n..]));
      } else {
        DropIsScan(t[1..]);
        AllFinalCons(t[0], DropOpens(t[1..]));
      }
    }
  }

  lemma AllFinalCons(c: Code, t: Text)
    ensures AllFinal([c] + t) <==> IsFinal(c) && AllFinal(t)
  {
    if AllFinal([c] + t) {
      assert c in [c] + t;
      forall d | d in t ensures IsFinal(d) {
        assert d in [c] + t;
      }
    }
  }

  // ----- the first two passes

  /** The first pass treats what is after the first `n` units on its own. */
  ghost predicate Aligned(t: Text, n: nat) {
    n <= |t| && n <= |MarkEscapes(t)| && MarkEscapes(t)[n..] == MarkEscapes(t[n..])
  }

  lemma AlignedAt(t: Text, n: nat)
    requires Aligned(t, n)
    ensures n <= |t| && n <= |MarkEscapes(t)| && MarkEscapes(t)[n..] == MarkEscapes(t[n..])
  {
  }

  lemma AlignedMore(t: Text, a: nat, b: nat)
    requires Aligned(t, a) && Aligned(t[a..], b)
    ensures Aligned(t, a + b)
  {
    assert t[a..][b..] == t[a + b..];
    assert MarkEscapes(t)[a..][b..] == MarkEscapes(t)[a + b..];
  }

  lemma MarkedHead(t: Text)
    ensures MarkEscapes(t) == [] <==> t == []
    ensures t != [] ==> MarkEscapes(t)[0] == if EscapeLen(t) > 0 then AT else t[0]
    ensures t != [] && EscapeLen(t) == 0 ==> Aligned(t, 1)
    ensures Aligned(t, 0)
  {
    assert t[0..] == t && MarkEscapes(t)[0..] == MarkEscapes(t);
  }

  lemma {:induction false} DigitsMarked(t: Text)
    ensures DigitRun(MarkEscapes(t)) == DigitRun(t) && Aligned(t, DigitRun(t))
  {
    MarkedHead(t);
    if t != [] && IsDigit(t[0]) {
      DigitsMarked(t[1..]);
      AlignedMore(t, 1, DigitRun(t[1..]));
    }
  }

  lemma ExponentMarked(t: Text)
    ensures ExponentLen(MarkEscapes(t)) == ExponentLen(t) && Aligned(t, ExponentLen(t))
  {
    hide DigitRun, MarkEscapes;
    MarkedHead(t);
    if t != [] && (t[0] == 101 || t[0] == 69) {
      MarkedHead(t[1..]);
      var s := if |t| > 1 && (t[1] == 43 || t[1] == MINUS) then 2 else 1;
      if s == 2 {
        assert t[1..][0] == t[1];
        AlignedMore(t, 1, 1);
      }
      assert |t| > 1 ==> t[1..][0] == t[1];
      assert |MarkEscapes(t)| > 1 ==> MarkEscapes(t)[1..][0] == MarkEscapes(t)[1];
      DigitsMarked(t[s..]);
      AlignedMore(t, s, DigitRun(t[s..]));
    }
  }

  lemma FractionMarked(t: Text)
    ensures FractionLen(MarkEscapes(t)) == FractionLen(t) && Aligned(t, FractionLen(t))
  {
    hide DigitRun, MarkEscapes;
    MarkedHead(t);
    if t != [] && t[0] == 46 {
      DigitsMarked(t[1..]);
      AlignedMore(t, 1, DigitRun(t[1..]));
    }
  }

  lemma TailMarked(t: Text)
    ensures TailLen(MarkEscapes(t)) == TailLen(t) && Aligned(t, TailLen(t))
  {
    hide FractionLen, ExponentLen, MarkEscapes, Aligned;
    var f := FractionLen(t);
    FractionMarked(t);
    AlignedAt(t, f);
    ExponentMarked(t[f..]);
    AlignedMore(t, f, ExponentLen(t[f..]));
  }

  lemma UnsignedMarked(t: Text)
    ensures UnsignedLen(MarkEscapes(t)) == UnsignedLen(t) && Aligned(t, UnsignedLen(t))
  {
    hide DigitRun, TailLen, MarkEscapes, Aligned;
    DigitsMarked(t);
    var d := DigitRun(t);
    AlignedAt(t, d);
    if d > 0 {
      TailMarked(t[d..]);
      AlignedMore(t, d, TailLen(t[d..]));
    }
  }

  lemma NumberMarked(t: Text)
    ensures NumberLen(MarkEscapes(t)) == NumberLen(t) && Aligned(t, NumberLen(t))
  {
    hide UnsignedLen, MarkEscapes;
    MarkedHead(t);
    if t != [] && t[0] == MINUS {
      UnsignedMarked(t[1..]);
      AlignedMore(t, 1, UnsignedLen(t[1..]));
    } else {
      UnsignedMarked(t);
    }
  }

  lemma {:induction false} LiteralMarked(w: Text, t: Text)
    requires BACKSLASH !in w && AT !in w
    ensures w <= MarkEscapes(t) <==> w <= t
    ensures w <= t ==> Aligned(t, |w|)
  {
    hide MarkEscapes;
    MarkedHead(t);
    if w != [] && t != [] && t[0] == w[0] {
      LiteralMarked(w[1..], t[1..]);
      assert w <= t <==> w[1..] <= t[1..];
      assert w <= MarkEscapes(t) <==> w[1..] <= MarkEscapes(t)[1..];
      if w <= t {
        AlignedMore(t, 1, |w| - 1);
      }
    }
  }

  lemma MarkedStep(t: Text)
    requires t != []
    ensures EscapeLen(t) > 0 ==> t[0] == BACKSLASH
    ensures var u, rest := MarkEscapes(t), MarkEscapes(t[if EscapeLen(t) > 0 then EscapeLen(t) else 1..]);
            u != [] && u[0] == (if EscapeLen(t) > 0 then AT else t[0]) && u[1..] == rest
  {
  }

  lemma {:induction false} BodyMarked(t: Text)
    ensures var u := MarkEscapes(t);
            var p := PlainRun(u);
            && (p < |u| && u[p] == QUOTE <==> BodyLen(t) > 0)
            && (BodyLen(t) > 0 ==> u[p + 1..] == MarkEscapes(t[BodyLen(t)..]))
    decreases |t|
  {
    hide MarkEscapes, EscapeLen;
    var u := MarkEscapes(t);
    if t == [] {
      MarkedHead(t);
    } else {
      MarkedStep(t);
      var k := if EscapeLen(t) > 0 then EscapeLen(t) else 1;
      var rest := MarkEscapes(t[k..]);
      if t[0] !in {QUOTE, NL, CR} && (t[0] == BACKSLASH ==> EscapeLen(t) > 0) {
        BodyMarked(t[k..]);
        var p := PlainRun(rest);
        assert PlainRun(u) == 1 + p;
        if BodyLen(t) > 0 {
          assert u[p + 2..] == rest[p + 1..];
          assert t[k..][BodyLen(t[k..])..] == t[BodyLen(t)..];
        }
      }
    }
  }

  lemma LiteralUnits()
    ensures BACKSLASH !in TRUE_TEXT && AT !in TRUE_TEXT
    ensures BACKSLASH !in FALSE_TEXT && AT !in FALSE_TEXT
    ensures BACKSLASH !in NULL_TEXT && AT !in NULL_TEXT
  {
  }

  /** Where no escape starts, the second pass finds a token exactly where the scan does, and what
      it has left to do is the same. */
  lemma TokenMarked(t: Text)
    requires t != [] && EscapeLen(t) == 0
    ensures var u := MarkEscapes(t);
            && (TokenLen(u) > 0 <==> RawTokenLen(t) > 0)
            && (RawTokenLen(t) > 0 ==> u[TokenLen(u)..] == MarkEscapes(t[RawTokenLen(t)..]))
  {
    hide MarkEscapes, BodyLen, PlainRun, NumberLen, EscapeLen;
    var u := MarkEscapes(t);
    MarkedHead(t);
    if t[0] == QUOTE {
      BodyMarked(t[1..]);
      var rest := MarkEscapes(t[1..]);
      var p := PlainRun(rest);
      assert u[1..] == rest;
      assert 1 + p < |u| ==> u[1 + p] == rest[p];
      if BodyLen(t[1..]) > 0 {
        assert u[p + 2..] == rest[p + 1..];
        assert t[1..][BodyLen(t[1..])..] == t[1 + BodyLen(t[1..])..];
      } else {
        NoOtherToken(u);
      }
    } else {
      LiteralUnits();
      LiteralMarked(TRUE_TEXT, t);
      LiteralMarked(FALSE_TEXT, t);
      LiteralMarked(NULL_TEXT, t);
      NumberMarked(t);
    }
  }

  lemma NoOtherToken(u: Text)
    requires u != [] && (u[0] == QUOTE || IsPunctuation(u[0]) || u[0] == AT || u[0] == BACKSLASH)
    ensures !(TRUE_TEXT <= u) && !(FALSE_TEXT <= u) && !(NULL_TEXT <= u) && NumberLen(u) == 0
  {
    assert u[0..] == u;
    NoLiteral(TRUE_TEXT, u);
    NoLiteral(FALSE_TEXT, u);
    NoLiteral(NULL_TEXT, u);
  }

  lemma NoLiteral(w: Text, u: Text)
    requires w != [] && u != [] && w[0] != u[0]
    ensures !(w <= u)
  {
  }

  lemma {:induction false} PassesAreScan(open: bool, t: Text)
    ensures ScanMarks(open, MarkTokens(MarkEscapes(t))) == Scan(open, t)
    decreases |t|
  {
    hide MarkEscapes, IsPunctuation, RawTokenLen, EscapeLen, TokenLen;
    MarkedHead(t);
    if t != [] {
      var u := MarkEscapes(t);
      var m := MarkTokens(u);
      EscapeIsNoToken(t);
      if EscapeLen(t) > 0 {
        NoTokenAt(u);
        assert m[0] == AT;
      } else {
        TokenMarked(t);
        if IsPunctuation(t[0]) {
          NoTokenAt(u);
          PassesAreScan(OpensAfter(open, t[0]), t[1..]);
          assert m[0] == t[0] && m[1..] == MarkTokens(MarkEscapes(t[1..]));
        } else if RawTokenLen(t) > 0 {
          PassesAreScan(false, t[RawTokenLen(t)..]);
          ClosedAfterToken(open);
          assert m[0] == RBRACKET && m[1..] == MarkTokens(MarkEscapes(t[RawTokenLen(t)..]));
        } else {
          assert m[0] == t[0];
        }
      }
    }
  }

  lemma ClosedAfterToken(open: bool)
    ensures IsPunctuation(RBRACKET) && !OpensAfter(open, RBRACKET)
  {
  }

  lemma EscapeIsNoToken(t: Text)
    requires t != []
    ensures !IsPunctuation(AT)
    ensures EscapeLen(t) > 0 ==> !IsPunctuation(t[0]) && RawTokenLen(t) == 0
  {
    if EscapeLen(t) > 0 {
      NoOtherToken(t);
    }
  }

  lemma NoTokenAt(u: Text)
    requires u != [] && (IsPunctuation(u[0]) || u[0] == AT)
    ensures TokenLen(u) == 0
  {
    NoOtherToken(u);
  }

  /** The gate is the scan, for every text. */
  lemma GateIsScan(t: Text)
    ensures Accepts(t) <==> Scan(true, t)
  {
    var m := MarkTokens(MarkEscapes(t));
    ScanRun(m);
    DropIsScan(m[BracketRun(m)..]);
    PassesAreScan(true, t);
  }

  // ----- numbers of the gate

  ghost predicate AllDigits(w: Text) {
    forall c | c in w :: IsDigit(c)
  }

  /** The first `n` units are a sign, digits, a point with digits and an exponent, all but the digits
      optional; the parts end at `s`, `a`, `b` and `n`. */
  ghost predicate NumberParts(t: Text, s: nat, a: nat, b: nat, n: nat) {
    && s < a <= b <= n <= |t|
    && (s == 0 || (s == 1 && t[0] == MINUS))
    && AllDigits(t[s..a])
    && (a == b || (t[a] == 46 && AllDigits(t[a + 1..b])))
    && (b == n || IsExponent(t[b..n]))
  }

  /** What the number pattern of the gate matches. */
  ghost predicate MatchesNumber(t: Text, n: nat) {
    exists s, a, b :: NumberParts(t, s, a, b, n)
  }

  lemma SliceOf(t: Text, k: nat, i: nat, j: nat)
    requires i <= j && k + j <= |t|
    ensures t[k..][i..j] == t[k + i..k + j] && t[k..][..j] == t[k..k + j] && t[k..][j..] == t[k + j..]
  {
  }

  ghost predicate IsExponent(w: Text) {
    && |w| >= 2 && (w[0] == 101 || w[0] == 69)
    && var d := if w[1] == 43 || w[1] == MINUS then 2 else 1;
       d < |w| && AllDigits(w[d..])
  }

  lemma {:induction false} RunIs(t: Text)
    ensures AllDigits(t[..DigitRun(t)])
    ensures DigitRun(t) < |t| ==> !IsDigit(t[DigitRun(t)])
  {
    if t != [] && IsDigit(t[0]) {
      RunIs(t[1..]);
      assert t[..DigitRun(t)] == [t[0]] + t[1..][..DigitRun(t[1..])];
    }
  }

  /** What the gate takes for a number at the start of a text is one. */
  lemma NumberIsNumber(t: Text)
    requires NumberLen(t) > 0
    ensures MatchesNumber(t, NumberLen(t))
  {
    hide DigitRun, AllDigits, IsExponent, ExponentLen, FractionLen;
    var s := if t != [] && t[0] == MINUS then 1 else 0;
    assert t[0..] == t;
    var u := t[s..];
    var d := DigitRun(u);
    var a := s + d;
    SliceOf(t, s, 0, d);
    RunIs(u);
    var b, n := TailIs(t, a);
    assert NumberParts(t, s, a, b, n);
  }

  lemma TailIs(t: Text, a: nat) returns (b: nat, n: nat)
    requires a <= |t|
    ensures a <= b <= n <= |t| && n == a + TailLen(t[a..])
    ensures a == b || (t[a] == 46 && AllDigits(t[a + 1..b]))
    ensures b == n || IsExponent(t[b..n])
  {
    hide DigitRun, AllDigits, IsExponent, ExponentLen, FractionLen;
    var tail := t[a..];
    var f := FractionLen(tail);
    b := a + f;
    var e := ExponentLen(tail[f..]);
    n := b + e;
    SliceOf(t, a, f, f);
    FractionIs(tail);
    if f > 0 {
      SliceOf(t, a, 1, f);
    }
    if e > 0 {
      ExponentIs(t[b..]);
      SliceOf(t, b, 0, e);
    }
  }

  lemma FractionIs(t: Text)
    ensures FractionLen(t) > 0 ==> t[0] == 46 && AllDigits(t[1..FractionLen(t)])
  {
    if FractionLen(t) > 0 {
      RunIs(t[1..]);
      assert t[1..FractionLen(t)] == t[1..][..DigitRun(t[1..])];
    }
  }

  lemma ExponentIs(t: Text)
    requires ExponentLen(t) > 0
    ensures IsExponent(t[..ExponentLen(t)])
  {
    hide DigitRun, AllDigits;
    var s := if |t| > 1 && (t[1] == 43 || t[1] == MINUS) then 2 else 1;
    var d := DigitRun(t[s..]);
    RunIs(t[s..]);
    var w := t[..s + d];
    assert w[s..] == t[s..][..d];
    assert w[0] == t[0] && w[1] == t[1];
    if s == 1 {
      FirstDigit(t[1..]);
      assert t[1] == t[1..][0];
    }
  }

  lemma FirstDigit(t: Text)
    requires DigitRun(t) > 0
    ensures t != [] && IsDigit(t[0]) && t[0] != 43 && t[0] != MINUS
  {
  }

  lemma {:induction false} RunCovers(t: Text, n: nat)
    requires n <= |t| && AllDigits(t[..n])
    ensures DigitRun(t) >= n
  {
    if n > 0 {
      assert t[..n][0] == t[0] && t[0] in t[..n];
      assert t[1..][..n - 1] == t[..n][1..];
      RunCovers(t[1..], n - 1);
    }
  }

  /** Digits end where another unit stands. */
  lemma RunStops(t: Text, n: nat)
    requires n < |t| && AllDigits(t[..n]) && !IsDigit(t[n])
    ensures DigitRun(t) == n
  {
    hide IsDigit;
    RunCovers(t, n);
    RunIs(t);
    RunHas(t, n);
  }

  lemma RunHas(t: Text, n: nat)
    requires AllDigits(t[..DigitRun(t)])
    ensures n < DigitRun(t) ==> IsDigit(t[n])
  {
    if n < DigitRun(t) {
      assert t[..DigitRun(t)][n] == t[n];
    }
  }

  lemma ExponentLongest(t: Text, k: nat)
    requires k <= |t| && IsExponent(t[..k])
    ensures k <= ExponentLen(t) && t[0] != 46 && !IsDigit(t[0])
  {
    hide DigitRun, AllDigits;
    var w := t[..k];
    assert w[0] == t[0] && w[1] == t[1];
    var s := if t[1] == 43 || t[1] == MINUS then 2 else 1;
    assert t[s..][..k - s] == w[s..];
    RunCovers(t[s..], k - s);
  }

  lemma FractionLongest(t: Text, k: nat)
    requires 0 < k <= |t| && t[0] == 46 && AllDigits(t[1..k])
    ensures FractionLen(t) >= k
    ensures k < |t| && !IsDigit(t[k]) ==> FractionLen(t) == k
  {
    hide DigitRun, AllDigits, IsDigit;
    assert t[1..][..k - 1] == t[1..k];
    RunCovers(t[1..], k - 1);
    if k < |t| && !IsDigit(t[k]) {
      assert t[1..][k - 1] == t[k];
      RunStops(t[1..], k - 1);
    }
  }

  lemma TailLongest(t: Text, b: nat, n: nat)
    requires b <= n <= |t| && (b == 0 || (t[0] == 46 && AllDigits(t[1..b]))) && (b == n || IsExponent(t[b..n]))
    ensures n <= TailLen(t)
  {
    hide AllDigits, IsDigit, IsExponent, ExponentLen, FractionLen;
    if b < n {
      var v := t[b..];
      assert v[..n - b] == t[b..n];
      ExponentLongest(v, n - b);
      assert v[0] == t[b];
      if b > 0 {
        FractionLongest(t, b);
      } else {
        NoFraction(t);
      }
      assert FractionLen(t) == b;
    } else if b > 0 {
      FractionLongest(t, b);
    }
  }

  lemma NoFraction(t: Text)
    requires t != [] && t[0] != 46
    ensures FractionLen(t) == 0
  {
  }

  lemma UnsignedLongest(t: Text, a: nat, b: nat, n: nat)
    requires 0 < a <= b <= n <= |t| && AllDigits(t[..a])
    requires (a == b || (t[a] == 46 && AllDigits(t[a + 1..b]))) && (b == n || IsExponent(t[b..n]))
    ensures n <= UnsignedLen(t)
  {
    hide AllDigits, IsExponent, TailLen, DigitRun;
    RunCovers(t, a);
    if a < n {
      SliceOf(t, b, 0, n - b);
      if a == b {
        ExponentLongest(t[b..], n - b);
      }
      RunStops(t, a);
      var u := t[a..];
      if a < b {
        SliceOf(t, a, 1, b - a);
      }
      SliceOf(t, a, b - a, n - a);
      TailLongest(u, b - a, n - a);
    }
  }

  /** And nothing longer that starts there is one. */
  lemma NumberIsLongest(t: Text, n: nat)
    requires MatchesNumber(t, n)
    ensures 0 < n <= NumberLen(t)
  {
    hide AllDigits, IsExponent, UnsignedLen;
    var s: nat, a: nat, b: nat :| NumberParts(t, s, a, b, n);
    assert t[0..] == t;
    SliceOf(t, s, 0, a - s);
    SliceOf(t, s, b - s, n - s);
    if a < b {
      SliceOf(t, s, a - s + 1, b - s);
    }
    UnsignedLongest(t[s..], a - s, b - s, n - s);
    DigitsHaveNoSign(t[s..a]);
  }

  lemma DigitsHaveNoSign(w: Text)
    requires w != [] && AllDigits(w)
    ensures IsDigit(w[0]) && w[0] != MINUS
  {
    assert w[0] in w;
  }
}
