/** Parsing what was printed. */
module JsonRoundTrip {
  import opened Wrappers
  import opened JsonText
  import opened JsonPrinter
  import opened JsonGate
  import opened JsonReader
  import opened JsonParsing

  // ----- the reader undoes the printer

  lemma Cons(c: Code, t: Text)
    ensures ([c] + t)[0] == c && ([c] + t)[1..] == t
  {
  }

  lemma {:induction false} DigitRunOf(w: Text, t: Text)
    requires forall c | c in w :: IsDigit(c)
    requires t == [] || !IsDigit(t[0])
    ensures DigitRun(w + t) == |w|
  {
    if w == [] {
      assert w + t == t;
    } else {
      assert (w + t)[1..] == w[1..] + t;
      DigitRunOf(w[1..], t);
    }
  }

  lemma PadSpace(gap: Text, mind: Text)
    requires AllSpace(gap) && AllSpace(mind)
    ensures AllSpace(Pad(gap)) && AllSpace(ClosePad(gap, mind)) && AllSpace(gap + mind)
  {
  }

  lemma PadEndsNumber(gap: Text, mind: Text, c: Code, t: Text)
    requires EndsNumber([c] + t)
    ensures EndsNumber(ClosePad(gap, mind) + ([c] + t))
  {
    assert [] + ([c] + t) == [c] + t;
  }

  lemma ReadPiece(c: Code, t: Text)
    ensures ReadBody(Escape(c) + t) == Prepend(c, ReadBody(t))
  {
    hide UnicodeEscape;
    var e := Escape(c);
    if IsEscapable(c) && Meta(c) == None {
      ReadUnicodeEscape(c, t);
    } else {
      assert (e + t)[|e|..] == t;
      assert IsEscapable(c) ==> EscapeLen(e + t) == 2;
    }
  }

  lemma {:induction false} ReadBodyText(s: Text, rest: Text)
    ensures ReadBody(Body(s, [QUOTE] + rest)) == Got(s, rest)
  {
    if s == [] {
      assert ([QUOTE] + rest)[1..] == rest;
    } else {
      ReadPiece(s[0], Body(s[1..], [QUOTE] + rest));
      ReadBodyText(s[1..], rest);
      assert [s[0]] + s[1..] == s;
    }
  }

  lemma {:induction false} DigitsOfNat(n: nat)
    ensures forall c | c in NatText(n) :: IsDigit(c)
    ensures DigitsValue(NatText(n)) == n
    ensures |NatText(n)| > 1 ==> NatText(n)[0] != 48
    ensures n > 0 ==> NatText(n)[0] != 48
  {
    if n >= 10 {
      DigitsOfNat(n / 10);
      var t := NatText(n);
      assert t[..|t| - 1] == NatText(n / 10);
    } else {
      assert NatText(n)[..0] == [];
    }
  }

  lemma ReadInt(n: int, rest: Text)
    requires EndsNumber(rest)
    ensures ReadNumber(IntText(n) + rest) == Got(n, rest)
  {
    hide IntText, NatText, DigitRun, DigitsValue, EndsNumber;
    var m: nat := if n < 0 then -n else n;
    var d := NatText(m);
    DigitsOfNat(m);
    assert EndsNumber(rest) ==> rest == [] || !IsDigit(rest[0]) by { EndIsNoDigit(rest); }
    DigitRunOf(d, rest);
    IntParts(n, rest);
    assert d[0] in d;
  }

  lemma EndIsNoDigit(rest: Text)
    ensures EndsNumber(rest) ==> rest == [] || !IsDigit(rest[0])
  {
  }

  /** The sign and the digits of a printed integer. */
  lemma IntParts(n: int, rest: Text)
    ensures var t, s, d := IntText(n) + rest, if n < 0 then 1 else 0, NatText(if n < 0 then -n else n);
            && s + |d| <= |t| && t[0] == (if n < 0 then MINUS else d[0])
            && t[s..] == d + rest && t[s + |d|..] == rest && t[s] == d[0] && t[s..][..|d|] == d
  {
  }

  lemma ReadLiteral(j: Json, rest: Text)
    requires j == JNull || j.JBool?
    ensures ReadScalar(ScalarText(j, rest)) == Got(j, rest)
  {
    var w := match j case JBool(b) => (if b then TRUE_TEXT else FALSE_TEXT) case _ => NULL_TEXT;
    var t := w + rest;
    assert t[..|w|] == w && t[|w|..] == rest;
    assert t[0] == w[0];
  }

  /** A printed integer starts with a digit or a minus sign. */
  lemma IntStart(n: int, rest: Text)
    ensures var t := IntText(n) + rest; t != [] && (IsDigit(t[0]) || t[0] == MINUS)
  {
    var m := if n < 0 then -n else n;
    DigitsOfNat(m);
    assert (IntText(n) + rest)[0] == IntText(n)[0];
    assert NatText(m)[0] in NatText(m);
  }

  lemma ReadScalarInt(n: int, rest: Text)
    requires EndsNumber(rest)
    ensures ReadScalar(IntText(n) + rest) == Got(JInt(n), rest)
  {
    IntStart(n, rest);
    ReadInt(n, rest);
  }

  lemma ReadScalarText(j: Json, rest: Text)
    requires IsScalar(j) && EndsNumber(rest)
    ensures ReadScalar(ScalarText(j, rest)) == Got(j, rest)
  {
    match j
    case JInt(n) => ReadScalarInt(n, rest);
    case JStr(s) =>
      ReadBodyText(s, rest);
      Cons(QUOTE, Body(s, [QUOTE] + rest));
    case _ => ReadLiteral(j, rest);
  }

  lemma {:induction false} SkipSpaces(w: Text, t: Text)
    requires AllSpace(w)
    ensures SkipSpace(w + t) == SkipSpace(t)
  {
    if w == [] {
      assert w + t == t;
    } else {
      assert (w + t)[1..] == w[1..] + t;
      SkipSpaces(w[1..], t);
      assert (w + t)[1 + SpaceRun(w[1..] + t)..] == (w[1..] + t)[SpaceRun(w[1..] + t)..];
    }
  }

  lemma PunctuationIsNoSpace()
    ensures !IsSpace(LBRACKET) && !IsSpace(RBRACKET) && !IsSpace(LBRACE) && !IsSpace(RBRACE) && !IsSpace(QUOTE)
  {
  }

  lemma SkipNothing(t: Text)
    requires t != [] && !IsSpace(t[0])
    ensures SkipSpace(t) == t
  {
    assert t[0..] == t;
  }

  /** A printed value starts with a unit that is neither white space nor a closing bracket. */
  lemma LayoutStart(j: Json, gap: Text, indent: Text, rest: Text)
    ensures var t := Layout(j, gap, indent, rest);
            t != [] && !IsSpace(t[0]) && t[0] != RBRACKET && t[0] != RBRACE
            && (IsScalar(j) <==> t[0] != LBRACKET && t[0] != LBRACE)
  {
    var t := Layout(j, gap, indent, rest);
    match j
    case JInt(n) => IntStart(n, rest);
    case JNull => assert t[0] == NULL_TEXT[0];
    case JBool(b) => assert t[0] == if b then TRUE_TEXT[0] else FALSE_TEXT[0];
    case JStr(s) => assert t[0] == QUOTE;
    case JArr(items) => assert t[0] == LBRACKET;
    case JObj(props) => assert t[0] == LBRACE;
  }

  /** White space before a value does not matter to the reader. */
  lemma ReadSpaces(w: Text, t: Text)
    requires AllSpace(w)
    ensures ReadValue(w + t) == ReadValue(t) && ReadItems(w + t) == ReadItems(t) && ReadProps(w + t) == ReadProps(t)
  {
    SkipSpaces(w, t);
  }

  lemma ReadKeyText(key: Text, c: Text, t: Text, w: Text)
    requires AllSpace(w) && c == ColonText(w)
    ensures ReadKey(StringText(key, c + t)) == Got(key, c[1..] + t)
  {
    var b := Body(key, [QUOTE] + (c + t));
    ReadBodyText(key, c + t);
    SkipNothing([QUOTE] + b);
    assert ([QUOTE] + b)[1..] == b;
    SkipNothing(c + t);
    assert (c + t)[1..] == c[1..] + t;
  }

  lemma {:induction false} ReadLayout(j: Json, gap: Text, indent: Text, rest: Text)
    requires AllSpace(gap) && AllSpace(indent) && EndsNumber(rest) && WellFormed(j)
    ensures ReadValue(Layout(j, gap, indent, rest)) == Got(j, rest)
    decreases j, 0
  {
    match j
    case JArr(items) => ReadArr(items, gap, indent, rest);
    case JObj(props) => ReadObj(props, gap, indent, rest);
    case _ =>
      LayoutStart(j, gap, indent, rest);
      SkipNothing(Layout(j, gap, indent, rest));
      ReadScalarText(j, rest);
  }

  lemma {:induction false} ReadArr(items: seq<Json>, gap: Text, indent: Text, rest: Text)
    requires AllSpace(gap) && AllSpace(indent)
    requires forall i | 0 <= i < |items| :: WellFormed(items[i])
    ensures ReadValue(Layout(JArr(items), gap, indent, rest)) == Got(JArr(items), rest)
    decreases items, 1
  {
    hide IsSpace, ReadScalar, ReadItems, ReadProps, ReadKey;
    PunctuationIsNoSpace();
    var g := gap + indent;
    var close := ClosePad(g, gap);
    PadSpace(gap, indent);
    PadSpace(g, gap);
    var body := if items == [] then [RBRACKET] + rest
                else Pad(g) + Items(items, g, indent, close + ([RBRACKET] + rest));
    var t := [LBRACKET] + body;
    assert t == Layout(JArr(items), gap, indent, rest);
    SkipNothing(t);
    assert t[1..] == body;
    if items == [] {
      SkipNothing(body);
      assert body[1..] == rest;
    } else {
      var inner := Items(items, g, indent, close + ([RBRACKET] + rest));
      SkipSpaces(Pad(g), inner);
      ItemsStart(items, g, indent, close + ([RBRACKET] + rest));
      SkipNothing(inner);
      PadEndsNumber(g, gap, RBRACKET, rest);
      ReadItemsText(items, g, indent, close, rest);
      ReadSpaces(Pad(g), inner);
      assert SkipSpace(body)[0] != RBRACKET;
    }
  }

  lemma {:induction false} ReadObj(props: seq<Prop>, gap: Text, indent: Text, rest: Text)
    requires AllSpace(gap) && AllSpace(indent) && DistinctKeys(props)
    requires forall i | 0 <= i < |props| :: WellFormed(props[i].val)
    ensures ReadValue(Layout(JObj(props), gap, indent, rest)) == Got(JObj(props), rest)
    decreases props, 1
  {
    hide IsSpace, ReadScalar, ReadItems, ReadProps, ReadKey;
    PunctuationIsNoSpace();
    var g := gap + indent;
    var close := ClosePad(g, gap);
    PadSpace(gap, indent);
    PadSpace(g, gap);
    var body := if props == [] then [RBRACE] + rest
                else Pad(g) + Props(props, g, indent, close + ([RBRACE] + rest));
    var t := [LBRACE] + body;
    assert t == Layout(JObj(props), gap, indent, rest);
    SkipNothing(t);
    assert t[1..] == body;
    if props == [] {
      SkipNothing(body);
      assert body[1..] == rest;
    } else {
      var inner := Props(props, g, indent, close + ([RBRACE] + rest));
      SkipSpaces(Pad(g), inner);
      assert inner[0] == QUOTE;
      SkipNothing(inner);
      PadEndsNumber(g, gap, RBRACE, rest);
      ReadPropsText(props, g, indent, close, rest);
      ReadSpaces(Pad(g), inner);
      assert SkipSpace(body)[0] != RBRACE;
    }
  }

  lemma ItemsStart(items: seq<Json>, gap: Text, indent: Text, rest: Text)
    requires items != []
    ensures var t := Items(items, gap, indent, rest); t != [] && !IsSpace(t[0]) && t[0] != RBRACKET
  {
    LayoutStart(items[0], gap, indent,
                if |items| == 1 then rest else [COMMA] + (Pad(gap) + Items(items[1..], gap, indent, rest)));
  }

  /** One turn of the reader's element loop. */
  lemma ReadItemsStep(t: Text, v: Json, u: Text, vs: seq<Json>, more: Text)
    requires ReadValue(t) == Got(v, [COMMA] + u)
    requires ReadItems(u) == Got(vs, more)
    ensures ReadItems(t) == Got([v] + vs, more)
  {
    hide ReadValue, ReadKey;
    Cons(COMMA, u);
    SkipNothing([COMMA] + u);
  }

  /** Its last turn. */
  lemma ReadItemsLast(t: Text, v: Json, close: Text, rest: Text)
    requires AllSpace(close)
    requires ReadValue(t) == Got(v, close + ([RBRACKET] + rest))
    ensures ReadItems(t) == Got([v], rest)
  {
    SkipSpaces(close, [RBRACKET] + rest);
    Cons(RBRACKET, rest);
    SkipNothing([RBRACKET] + rest);
  }

  lemma {:induction false} ReadItemsText(items: seq<Json>, gap: Text, indent: Text, close: Text, rest: Text)
    requires items != [] && AllSpace(gap) && AllSpace(indent) && AllSpace(close)
    requires forall i | 0 <= i < |items| :: WellFormed(items[i])
    requires EndsNumber(close + ([RBRACKET] + rest))
    ensures ReadItems(Items(items, gap, indent, close + ([RBRACKET] + rest))) == Got(items, rest)
    decreases items, 0
  {
    hide IsSpace, ReadValue, ReadItems, Layout, SkipSpace;
    var tail := close + ([RBRACKET] + rest);
    var t := Items(items, gap, indent, tail);
    var v, vs := items[0], items[1..];
    assert items == [v] + vs;
    if |items| == 1 {
      ReadLayout(v, gap, indent, tail);
      ReadItemsLast(t, v, close, rest);
      assert items == [v];
    } else {
      var u := Pad(gap) + Items(vs, gap, indent, tail);
      ReadLayout(v, gap, indent, [COMMA] + u);
      assert ReadItems(u) == Got(vs, rest) by {
        ReadItemsText(vs, gap, indent, close, rest);
        PadSpace(gap, gap);
        ReadSpaces(Pad(gap), Items(vs, gap, indent, tail));
      }
      ReadItemsStep(t, v, u, vs, rest);
    }
  }

  /** The first member of a printed object, whatever comes after its value. */
  lemma ReadMember(p: Prop, gap: Text, indent: Text, after: Text)
    requires AllSpace(gap) && AllSpace(indent) && WellFormed(p.val) && EndsNumber(after)
    ensures var r := ReadKey(StringText(p.key, ColonText(gap) + Layout(p.val, gap, indent, after)));
            r.Got? && r.value == p.key && ReadValue(r.rest) == Got(p.val, after)
    decreases p, 0
  {
    var v := Layout(p.val, gap, indent, after);
    ReadKeyText(p.key, ColonText(gap), v, gap);
    ReadLayout(p.val, gap, indent, after);
    ReadSpaces(ColonText(gap)[1..], v);
  }

  /** One turn of the reader's member loop. */
  lemma ReadPropsStep(t: Text, p: Prop, u: Text, ps: seq<Prop>, more: Text)
    requires ReadKey(t).Got? && ReadKey(t).value == p.key
    requires ReadValue(ReadKey(t).rest) == Got(p.val, [COMMA] + u)
    requires ReadProps(u) == Got(ps, more) && !HasKey(ps, p.key)
    ensures ReadProps(t) == Got([p] + ps, more)
  {
    hide ReadValue, ReadKey;
    Cons(COMMA, u);
    SkipNothing([COMMA] + u);
  }

  /** Its last turn. */
  lemma ReadPropsLast(t: Text, p: Prop, close: Text, rest: Text)
    requires AllSpace(close)
    requires ReadKey(t).Got? && ReadKey(t).value == p.key
    requires ReadValue(ReadKey(t).rest) == Got(p.val, close + ([RBRACE] + rest))
    ensures ReadProps(t) == Got([p], rest)
  {
    SkipSpaces(close, [RBRACE] + rest);
    Cons(RBRACE, rest);
    SkipNothing([RBRACE] + rest);
  }

  lemma {:induction false} ReadPropsText(props: seq<Prop>, gap: Text, indent: Text, close: Text, rest: Text)
    requires props != [] && AllSpace(gap) && AllSpace(indent) && AllSpace(close) && DistinctKeys(props)
    requires forall i | 0 <= i < |props| :: WellFormed(props[i].val)
    requires EndsNumber(close + ([RBRACE] + rest))
    ensures ReadProps(Props(props, gap, indent, close + ([RBRACE] + rest))) == Got(props, rest)
    decreases props, 0
  {
    hide IsSpace, ReadValue, ReadKey, ReadProps, ReadItems, Layout, StringText, ColonText, SkipSpace;
    var tail := close + ([RBRACE] + rest);
    var t := Props(props, gap, indent, tail);
    var p, ps := props[0], props[1..];
    assert props == [p] + ps;
    if |props| == 1 {
      ReadMember(p, gap, indent, tail);
      ReadPropsLast(t, p, close, rest);
      assert props == [p];
    } else {
      var u := Pad(gap) + Props(ps, gap, indent, tail);
      ReadMember(p, gap, indent, [COMMA] + u);
      assert ReadProps(u) == Got(ps, rest) by {
        ReadPropsText(ps, gap, indent, close, rest);
        PadSpace(gap, gap);
        ReadSpaces(Pad(gap), Props(ps, gap, indent, tail));
      }
      ReadPropsStep(t, p, u, ps, rest);
    }
  }
}
