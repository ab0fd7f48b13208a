/** How printed text is laid out: with an indent every line stands at its depth, closing brackets at the
    depth of their opening line; without one there are no lines. */
module JsonLines {
  import opened JsonText
  import opened JsonPrinter
  import opened JsonGrammar

  datatype Line = Line(depth: nat, text: Text)

  /** The lines of a value at a depth. */
  function LinesOf(j: Json, depth: nat, colon: Text): (ls: seq<Line>)
    ensures ls != [] && ls[0].depth == depth && ls[|ls| - 1].depth == depth
    decreases j, 0
  {
    match j
    case JArr(items) =>
      if items == [] then [Line(depth, [LBRACKET, RBRACKET])]
      else [Line(depth, [LBRACKET])] + ItemLines(items, depth + 1, colon) + [Line(depth, [RBRACKET])]
    case JObj(props) =>
      if props == [] then [Line(depth, [LBRACE, RBRACE])]
      else [Line(depth, [LBRACE])] + PropLines(props, depth + 1, colon) + [Line(depth, [RBRACE])]
    case _ => [Line(depth, ScalarText(j, []))]
  }

  function ItemLines(items: seq<Json>, depth: nat, colon: Text): (ls: seq<Line>)
    requires items != []
    ensures ls != [] && ls[0].depth == depth
    decreases items, 0
  {
    var first := LinesOf(items[0], depth, colon);
    if |items| == 1 then first else EndWith(first, [COMMA]) + ItemLines(items[1..], depth, colon)
  }

  function PropLines(props: seq<Prop>, depth: nat, colon: Text): (ls: seq<Line>)
    requires props != []
    ensures ls != [] && ls[0].depth == depth
    decreases props, 0
  {
    var first := StartWith(StringText(props[0].key, []) + colon, LinesOf(props[0].val, depth, colon));
    if |props| == 1 then first else EndWith(first, [COMMA]) + PropLines(props[1..], depth, colon)
  }

  function StartWith(t: Text, ls: seq<Line>): (r: seq<Line>)
    requires ls != []
    ensures |r| == |ls| && r[0].depth == ls[0].depth
  {
    [Line(ls[0].depth, t + ls[0].text)] + ls[1..]
  }

  function EndWith(ls: seq<Line>, t: Text): (r: seq<Line>)
    requires ls != []
    ensures |r| == |ls| && r[0].depth == ls[0].depth
  {
    ls[..|ls| - 1] + [Line(ls[|ls| - 1].depth, ls[|ls| - 1].text + t)]
  }

  /** As many indents as the depth says. */
  function Margin(indent: Text, depth: nat): Text {
    if depth == 0 then [] else Margin(indent, depth - 1) + indent
  }

  /** What separates a line from the one before. */
  function Break(indent: Text, depth: nat): Text {
    if indent == [] then [] else [NL] + Margin(indent, depth)
  }

  /** Lines that follow others. */
  function Following(ls: seq<Line>, indent: Text): Text {
    if ls == [] then [] else Break(indent, ls[0].depth) + ls[0].text + Following(ls[1..], indent)
  }

  /** Lines from the start of a text, or after something on the same line. */
  function Joined(ls: seq<Line>, indent: Text): Text
    requires ls != []
  {
    ls[0].text + Following(ls[1..], indent)
  }

  lemma {:induction false} FollowingConcat(a: seq<Line>, b: seq<Line>, indent: Text)
    ensures Following(a + b, indent) == Following(a, indent) + Following(b, indent)
  {
    if a == [] {
      assert a + b == b;
    } else {
      assert (a + b)[1..] == a[1..] + b;
      FollowingConcat(a[1..], b, indent);
      Assoc(Break(indent, a[0].depth) + a[0].text, Following(a[1..], indent), Following(b, indent));
    }
  }

  lemma FollowingJoined(ls: seq<Line>, indent: Text)
    requires ls != []
    ensures Following(ls, indent) == Break(indent, ls[0].depth) + Joined(ls, indent)
  {
    Assoc(Break(indent, ls[0].depth), ls[0].text, Following(ls[1..], indent));
  }

  lemma JoinedConcat(a: seq<Line>, b: seq<Line>, indent: Text)
    requires a != []
    ensures Joined(a + b, indent) == Joined(a, indent) + Following(b, indent)
  {
    assert (a + b)[1..] == a[1..] + b;
    FollowingConcat(a[1..], b, indent);
    Assoc(a[0].text, Following(a[1..], indent), Following(b, indent));
  }

  lemma JoinedStart(t: Text, ls: seq<Line>, indent: Text)
    requires ls != []
    ensures Joined(StartWith(t, ls), indent) == t + Joined(ls, indent)
  {
    assert StartWith(t, ls)[1..] == ls[1..];
    Assoc(t, ls[0].text, Following(ls[1..], indent));
  }

  lemma OneLine(l: Line, indent: Text)
    ensures Joined([l], indent) == l.text
    ensures Following([l], indent) == Break(indent, l.depth) + l.text
  {
    assert [l][1..] == [];
    assert l.text + [] == l.text;
    assert (Break(indent, l.depth) + l.text) + [] == Break(indent, l.depth) + l.text;
  }

  lemma JoinedEnd(ls: seq<Line>, t: Text, indent: Text)
    requires ls != []
    ensures Joined(EndWith(ls, t), indent) == Joined(ls, indent) + t
  {
    var m := |ls| - 1;
    var front, last := ls[..m], ls[m];
    var ended := Line(last.depth, last.text + t);
    OneLine(last, indent);
    OneLine(ended, indent);
    if m == 0 {
      assert ls == [last] && EndWith(ls, t) == [ended];
    } else {
      assert ls == front + [last];
      JoinedConcat(front, [last], indent);
      JoinedConcat(front, [ended], indent);
      Assoc(Break(indent, last.depth), last.text, t);
      Assoc(Joined(front, indent), Break(indent, last.depth) + last.text, t);
    }
  }

  // ----- the layout of the printer

  lemma Margins(indent: Text, depth: nat)
    ensures Margin(indent, depth) + indent == Margin(indent, depth + 1)
    ensures Pad(Margin(indent, depth + 1)) == Break(indent, depth + 1)
    ensures ClosePad(Margin(indent, depth + 1), Margin(indent, depth)) == Break(indent, depth)
    ensures ColonText(Margin(indent, depth + 1)) == ColonText(indent)
  {
    if indent == [] {
      NoMargin(depth + 1);
    } else {
      assert |Margin(indent, depth + 1)| >= |indent|;
    }
  }

  lemma {:induction false} NoMargin(depth: nat)
    ensures Margin([], depth) == []
  {
    if depth > 0 {
      NoMargin(depth - 1);
    }
  }

  /** The printed text of a value is its lines, each at its margin. */
  lemma {:induction false} LayoutIsLines(j: Json, depth: nat, indent: Text)
    ensures Layout(j, Margin(indent, depth), indent, []) == Joined(LinesOf(j, depth, ColonText(indent)), indent)
    decreases j, 0
  {
    hide Margin, Break, Pad, ClosePad, ColonText;
    Margins(indent, depth);
    var g, colon := Margin(indent, depth + 1), ColonText(indent);
    match j
    case JArr(items) =>
      if items == [] {
        OneLine(Line(depth, [LBRACKET, RBRACKET]), indent);
        assert [LBRACKET] + ([RBRACKET] + []) == [LBRACKET, RBRACKET];
      } else {
        var close := Break(indent, depth) + ([RBRACKET] + []);
        ItemsAreLines(items, depth + 1, indent);
        ItemsRest(items, g, indent, close);
        Enclose(LBRACKET, ItemLines(items, depth + 1, colon), RBRACKET, depth, indent);
        assert Layout(j, Margin(indent, depth), indent, []) == [LBRACKET] + (Pad(g) + Items(items, g, indent, close));
      }
    case JObj(props) =>
      if props == [] {
        OneLine(Line(depth, [LBRACE, RBRACE]), indent);
        assert [LBRACE] + ([RBRACE] + []) == [LBRACE, RBRACE];
      } else {
        var close := Break(indent, depth) + ([RBRACE] + []);
        PropsAreLines(props, depth + 1, indent);
        PropsRest(props, g, indent, close);
        Enclose(LBRACE, PropLines(props, depth + 1, colon), RBRACE, depth, indent);
        assert Layout(j, Margin(indent, depth), indent, []) == [LBRACE] + (Pad(g) + Props(props, g, indent, close));
      }
    case _ => OneLine(Line(depth, ScalarText(j, [])), indent);
  }

  /** An opening line, the lines inside and a closing line. */
  lemma Enclose(open: Code, ls: seq<Line>, close: Code, depth: nat, indent: Text)
    requires ls != [] && ls[0].depth == depth + 1
    ensures Joined([Line(depth, [open])] + ls + [Line(depth, [close])], indent) ==
            [open] + (Break(indent, depth + 1) + (Joined(ls, indent) + (Break(indent, depth) + ([close] + []))))
  {
    hide Break;
    var first, last := Line(depth, [open]), Line(depth, [close]);
    assert [first] + ls + [last] == [first] + (ls + [last]);
    OneLine(first, indent);
    OneLine(last, indent);
    JoinedConcat([first], ls + [last], indent);
    FollowingConcat(ls, [last], indent);
    FollowingJoined(ls, indent);
    assert [close] + [] == [close];
    Assoc(Break(indent, depth + 1), Joined(ls, indent), Break(indent, depth) + [close]);
  }

  lemma {:induction false} ItemsAreLines(items: seq<Json>, depth: nat, indent: Text)
    requires items != [] && depth > 0
    ensures Items(items, Margin(indent, depth), indent, []) == Joined(ItemLines(items, depth, ColonText(indent)), indent)
    decreases items, 0
  {
    hide Margin, Break, Pad, ColonText;
    Margins(indent, depth - 1);
    var g, colon := Margin(indent, depth), ColonText(indent);
    LayoutIsLines(items[0], depth, indent);
    if |items| > 1 {
      var first, more := LinesOf(items[0], depth, colon), ItemLines(items[1..], depth, colon);
      ItemsAreLines(items[1..], depth, indent);
      LayoutRest(items[0], g, indent, [COMMA] + (Pad(g) + Items(items[1..], g, indent, [])));
      JoinedEnd(first, [COMMA], indent);
      JoinedConcat(EndWith(first, [COMMA]), more, indent);
      FollowingJoined(more, indent);
      Assoc(Joined(first, indent), [COMMA], Following(more, indent));
    }
  }

  lemma {:induction false} PropsAreLines(props: seq<Prop>, depth: nat, indent: Text)
    requires props != [] && depth > 0
    ensures Props(props, Margin(indent, depth), indent, []) == Joined(PropLines(props, depth, ColonText(indent)), indent)
    decreases props, 0
  {
    hide Margin, Break, Pad, ColonText, StringText;
    Margins(indent, depth - 1);
    var g, colon := Margin(indent, depth), ColonText(indent);
    var key := StringText(props[0].key, []) + colon;
    var value := LinesOf(props[0].val, depth, colon);
    var first := StartWith(key, value);
    LayoutIsLines(props[0].val, depth, indent);
    JoinedStart(key, value, indent);
    if |props| == 1 {
      MemberRest(props[0], g, indent, []);
      assert (key + Joined(value, indent)) + [] == key + Joined(value, indent);
    } else {
      var more := PropLines(props[1..], depth, colon);
      PropsAreLines(props[1..], depth, indent);
      var tail := [COMMA] + (Pad(g) + Props(props[1..], g, indent, []));
      MemberRest(props[0], g, indent, tail);
      JoinedEnd(first, [COMMA], indent);
      JoinedConcat(EndWith(first, [COMMA]), more, indent);
      FollowingJoined(more, indent);
      Assoc(Joined(first, indent), [COMMA], Following(more, indent));
    }
  }

  /** A whole printed text starts at the margin. */
  lemma PrintIsLines(j: Json, indent: Text)
    ensures Print(j, indent) == Joined(LinesOf(j, 0, ColonText(indent)), indent)
  {
    LayoutIsLines(j, 0, indent);
  }

  /** A number asks for that many spaces, a text for itself. */
  lemma IndentIs(space: Spacing)
    ensures match space
            case NoSpacing => Indent(space) == []
            case Count(n) => |Indent(space)| == (if n > 0 then n else 0) && forall c | c in Indent(space) :: c == SPACE
            case Literal(t) => Indent(space) == t
  {
  }

  /** How `quote` writes a unit: quotation mark, backslash and five controls get their short escape, other
      units of the class `escapable` four lower-case hexadecimal digits, and the rest stand for themselves. */
  lemma EscapeIs(c: Code)
    ensures c in {QUOTE, BACKSLASH, 8, TAB, NL, 12, CR} ==>
              |Escape(c)| == 2 && Escape(c)[0] == BACKSLASH && Escape(c)[1] != 47 && (Escape(c)[1], c) in SHORT_ESCAPES
    ensures c !in {QUOTE, BACKSLASH, 8, TAB, NL, 12, CR} && (c < 0x20 || 0x7f <= c <= 0x9f || IsCx(c)) ==>
              && |Escape(c)| == 6 && Escape(c)[0] == BACKSLASH && Escape(c)[1] == 117
              && Escape(c)[2] == LOWER_HEX[c / 4096] && Escape(c)[3] == LOWER_HEX[c / 256 % 16]
              && Escape(c)[4] == LOWER_HEX[c / 16 % 16] && Escape(c)[5] == LOWER_HEX[c % 16]
    ensures c !in {QUOTE, BACKSLASH} && c >= 0x20 && !(0x7f <= c <= 0x9f) && !IsCx(c) ==> Escape(c) == [c]
  {
    hide IsCx, HexDigit;
    if c !in {QUOTE, BACKSLASH, 8, TAB, NL, 12, CR} && (c < 0x20 || 0x7f <= c <= 0x9f || IsCx(c)) {
      LowerDigit(c / 4096);
      LowerDigit(c / 256 % 16);
      LowerDigit(c / 16 % 16);
      LowerDigit(c % 16);
    } else if c in {QUOTE, BACKSLASH, 8, TAB, NL, 12, CR} {
      var s := SHORT_ESCAPES;
      assert s[0] in s && s[1] in s && s[3] in s && s[4] in s && s[5] in s && s[6] in s && s[7] in s;
    }
  }

  lemma LowerDigit(d: int)
    requires 0 <= d < 16
    ensures HexDigit(d) == LOWER_HEX[d]
  {
  }

  /** A colon is followed by a space exactly when there is an indent. */
  lemma ColonIs(indent: Text)
    ensures ColonText(indent) == if indent == [] then Units(":") else Units(": ")
  {
  }
}
