/** The printer of json2.js: `quote`, `str` and `JSON2.stringify`. */
module JsonPrinter {
  import opened Wrappers
  import opened JsonText

  /** The entry of the table `meta`, if there is one. */
  function Meta(c: Code): Option<Code> {
    if c == 8 then Some(98)
    else if c == TAB then Some(116)
    else if c == NL then Some(110)
    else if c == 12 then Some(102)
    else if c == CR then Some(114)
    else if c == QUOTE then Some(QUOTE)
    else if c == BACKSLASH then Some(BACKSLASH)
    else None
  }

  /** One unit of a string as `quote` writes it. */
  function Escape(c: Code): (r: Text)
    ensures 0 < |r|
  {
    if !IsEscapable(c) then [c]
    else match Meta(c)
      case Some(m) => [BACKSLASH, m]
      case None => UnicodeEscape(c)
  }

  /** The units of a string followed by `rest`. */
  function Body(s: Text, rest: Text): Text {
    if s == [] then rest else Escape(s[0]) + Body(s[1..], rest)
  }

  function StringText(s: Text, rest: Text): Text {
    [QUOTE] + Body(s, [QUOTE] + rest)
  }

  function NatText(n: nat): (r: Text)
    ensures 0 < |r|
  {
    if n < 10 then [48 + n] else NatText(n / 10) + [48 + n % 10]
  }

  function IntText(n: int): Text {
    if n < 0 then [MINUS] + NatText(-n) else NatText(n)
  }

  predicate IsScalar(j: Json) {
    !j.JArr? && !j.JObj?
  }

  function ScalarText(j: Json, rest: Text): Text
    requires IsScalar(j)
  {
    match j
    case JNull => NULL_TEXT + rest
    case JBool(b) => (if b then TRUE_TEXT else FALSE_TEXT) + rest
    case JInt(n) => IntText(n) + rest
    case JStr(s) => StringText(s, rest)
  }

  /** The white space after an opening bracket and after a comma. */
  function Pad(gap: Text): Text {
    if gap == [] then [] else [NL] + gap
  }

  /** The white space before a closing bracket, `mind` being the outer gap. */
  function ClosePad(gap: Text, mind: Text): Text {
    if gap == [] then [] else [NL] + mind
  }

  function ColonText(gap: Text): Text {
    if gap == [] then [COLON] else [COLON, SPACE]
  }

  /** The text of `j` under the current gap and the indent, followed by `rest`. */
  function Layout(j: Json, gap: Text, indent: Text, rest: Text): Text
    decreases j, 0
  {
    match j
    case JArr(items) =>
      if items == [] then [LBRACKET] + ([RBRACKET] + rest)
      else
        var g := gap + indent;
        [LBRACKET] + (Pad(g) + Items(items, g, indent, ClosePad(g, gap) + ([RBRACKET] + rest)))
    case JObj(props) =>
      if props == [] then [LBRACE] + ([RBRACE] + rest)
      else
        var g := gap + indent;
        [LBRACE] + (Pad(g) + Props(props, g, indent, ClosePad(g, gap) + ([RBRACE] + rest)))
    case _ => ScalarText(j, rest)
  }

  function Items(items: seq<Json>, gap: Text, indent: Text, rest: Text): Text
    decreases items, 0
  {
    if items == [] then rest
    else
      Layout(items[0], gap, indent,
             if |items| == 1 then rest
             else [COMMA] + (Pad(gap) + Items(items[1..], gap, indent, rest)))
  }

  function Props(props: seq<Prop>, gap: Text, indent: Text, rest: Text): Text
    decreases props, 0
  {
    if props == [] then rest
    else
      StringText(props[0].key,
                 ColonText(gap) +
                 Layout(props[0].val, gap, indent,
                        if |props| == 1 then rest
                        else [COMMA] + (Pad(gap) + Props(props[1..], gap, indent, rest))))
  }

  /** What a full printing should return. */
  function Print(j: Json, indent: Text): Text {
    Layout(j, [], indent, [])
  }

  // ----- `rest` is carried along unchanged

  lemma Assoc(a: Text, b: Text, c: Text)
    ensures (a + b) + c == a + (b + c)
  {
  }

  /** Re-bracketing of four pieces and a rest. */
  lemma Assoc4(a: Text, b: Text, c: Text, d: Text, rest: Text)
    ensures a + (b + (c + (d + rest))) == (a + (b + (c + d))) + rest
  {
    Assoc(a, b + (c + d), rest);
    Assoc(b, c + d, rest);
    Assoc(c, d, rest);
  }

  lemma {:induction false} BodyRest(s: Text, rest: Text)
    ensures Body(s, rest) == Body(s, []) + rest
  {
    if s == [] {
      assert [] + rest == rest;
    } else {
      BodyRest(s[1..], rest);
      Assoc(Escape(s[0]), Body(s[1..], []), rest);
    }
  }

  lemma StringRest(s: Text, rest: Text)
    ensures StringText(s, rest) == StringText(s, []) + rest
  {
    var b, q: Text := Body(s, []), [QUOTE] + [];
    BodyRest(s, [QUOTE] + rest);
    BodyRest(s, q);
    assert q + rest == [QUOTE] + rest;
    Assoc(b, q, rest);
    Assoc([QUOTE], b + q, rest);
  }

  lemma ScalarRest(j: Json, rest: Text)
    requires IsScalar(j)
    ensures ScalarText(j, rest) == ScalarText(j, []) + rest
  {
    if j.JStr? {
      StringRest(j.s, rest);
    }
  }

  lemma {:induction false} LayoutRest(j: Json, gap: Text, indent: Text, rest: Text)
    ensures Layout(j, gap, indent, rest) == Layout(j, gap, indent, []) + rest
    decreases j, 0
  {
    var g := gap + indent;
    match j
    case JArr(items) =>
      if items != [] {
        var close := ClosePad(g, gap) + ([RBRACKET] + []);
        Assoc(ClosePad(g, gap), [RBRACKET], rest);
        assert close + rest == ClosePad(g, gap) + ([RBRACKET] + rest);
        ItemsRest(items, g, indent, close + rest);
        ItemsRest(items, g, indent, close);
        Assoc4([LBRACKET], Pad(g), Items(items, g, indent, []), close, rest);
      }
    case JObj(props) =>
      if props != [] {
        var close := ClosePad(g, gap) + ([RBRACE] + []);
        Assoc(ClosePad(g, gap), [RBRACE], rest);
        assert close + rest == ClosePad(g, gap) + ([RBRACE] + rest);
        PropsRest(props, g, indent, close + rest);
        PropsRest(props, g, indent, close);
        Assoc4([LBRACE], Pad(g), Props(props, g, indent, []), close, rest);
      }
    case _ => ScalarRest(j, rest);
  }

  lemma {:induction false} ItemsRest(items: seq<Json>, gap: Text, indent: Text, rest: Text)
    ensures Items(items, gap, indent, rest) == Items(items, gap, indent, []) + rest
    decreases items, 0
  {
    if |items| == 1 {
      LayoutRest(items[0], gap, indent, rest);
    } else if items != [] {
      var more := Items(items[1..], gap, indent, []);
      ItemsRest(items[1..], gap, indent, rest);
      LayoutRest(items[0], gap, indent, [COMMA] + (Pad(gap) + (more + rest)));
      LayoutRest(items[0], gap, indent, [COMMA] + (Pad(gap) + more));
      Assoc4(Layout(items[0], gap, indent, []), [COMMA], Pad(gap), more, rest);
    }
  }

  /** A member is its key, its colon, its value and what follows. */
  lemma MemberRest(p: Prop, gap: Text, indent: Text, tail: Text)
    ensures StringText(p.key, ColonText(gap) + Layout(p.val, gap, indent, tail)) ==
            StringText(p.key, []) + ColonText(gap) + Layout(p.val, gap, indent, []) + tail
    decreases p, 0
  {
    var k, c, v := StringText(p.key, []), ColonText(gap), Layout(p.val, gap, indent, []);
    LayoutRest(p.val, gap, indent, tail);
    StringRest(p.key, c + (v + tail));
    Assoc(k + c, v, tail);
    Assoc(k, c, v + tail);
  }

  lemma {:induction false} PropsRest(props: seq<Prop>, gap: Text, indent: Text, rest: Text)
    ensures Props(props, gap, indent, rest) == Props(props, gap, indent, []) + rest
    decreases props, 0
  {
    if props != [] {
      var head := StringText(props[0].key, []) + ColonText(gap) + Layout(props[0].val, gap, indent, []);
      if |props| == 1 {
        LayoutRest(props[0].val, gap, indent, rest);
        MemberRest(props[0], gap, indent, rest);
        MemberRest(props[0], gap, indent, []);
        assert head + [] == head;
      } else {
        var more := Props(props[1..], gap, indent, []);
        PropsRest(props[1..], gap, indent, rest);
        MemberRest(props[0], gap, indent, [COMMA] + (Pad(gap) + (more + rest)));
        MemberRest(props[0], gap, indent, [COMMA] + (Pad(gap) + more));
        Assoc4(head, [COMMA], Pad(gap), more, rest);
      }
    }
  }

  // ----- the printer itself

  function Join(parts: seq<Text>, sep: Text): Text {
    if parts == [] then []
    else if |parts| == 1 then parts[0]
    else parts[0] + sep + Join(parts[1..], sep)
  }

  function ItemParts(items: seq<Json>, gap: Text, indent: Text): seq<Text> {
    seq(|items|, i requires 0 <= i < |items| => Layout(items[i], gap, indent, []))
  }

  function PropPart(p: Prop, gap: Text, indent: Text): Text {
    StringText(p.key, []) + ColonText(gap) + Layout(p.val, gap, indent, [])
  }

  function PropParts(props: seq<Prop>, gap: Text, indent: Text): seq<Text> {
    seq(|props|, i requires 0 <= i < |props| => PropPart(props[i], gap, indent))
  }

  lemma {:induction false} JoinItems(items: seq<Json>, gap: Text, indent: Text)
    requires items != []
    ensures Join(ItemParts(items, gap, indent), [COMMA] + Pad(gap)) == Items(items, gap, indent, [])
    decreases |items|
  {
    var parts := ItemParts(items, gap, indent);
    if |items| > 1 {
      JoinItems(items[1..], gap, indent);
      assert parts[1..] == ItemParts(items[1..], gap, indent);
      var more := Items(items[1..], gap, indent, []);
      LayoutRest(items[0], gap, indent, [COMMA] + (Pad(gap) + more));
      Assoc(parts[0], [COMMA] + Pad(gap), more);
      Assoc([COMMA], Pad(gap), more);
    }
  }

  lemma {:induction false} JoinProps(props: seq<Prop>, gap: Text, indent: Text)
    requires props != []
    ensures Join(PropParts(props, gap, indent), [COMMA] + Pad(gap)) == Props(props, gap, indent, [])
    decreases |props|
  {
    var parts := PropParts(props, gap, indent);
    if |props| > 1 {
      JoinProps(props[1..], gap, indent);
      assert parts[1..] == PropParts(props[1..], gap, indent);
      var more := Props(props[1..], gap, indent, []);
      MemberRest(props[0], gap, indent, [COMMA] + (Pad(gap) + more));
      Assoc(parts[0], [COMMA] + Pad(gap), more);
      Assoc([COMMA], Pad(gap), more);
    } else {
      MemberRest(props[0], gap, indent, []);
      assert parts[0] + [] == parts[0];
    }
  }

  /** The three-way choice that ends both container branches of `str`. */
  function Bracketed(open: Code, partial: seq<Text>, close: Code, gap: Text, mind: Text): Text {
    if |partial| == 0 then [open, close]
    else if gap != [] then [open, NL] + gap + Join(partial, [COMMA, NL] + gap) + [NL] + mind + [close]
    else [open] + Join(partial, [COMMA]) + [close]
  }

  /** Re-bracketing of a flat concatenation. */
  lemma Assoc5(a: Text, b: Text, c: Text, d: Text, e: Text)
    ensures a + b + c + d + e == a + (b + (c + (d + e)))
  {
    Assoc(a + b + c, d, e);
    Assoc(a + b, c, d + e);
    Assoc(a, b, c + (d + e));
  }

  lemma BracketedText(open: Code, partial: seq<Text>, close: Code, gap: Text, mind: Text)
    requires partial != []
    ensures Bracketed(open, partial, close, gap, mind) ==
            [open] + (Pad(gap) + (Join(partial, [COMMA] + Pad(gap)) + (ClosePad(gap, mind) + ([close] + []))))
  {
    var joined := Join(partial, [COMMA] + Pad(gap));
    assert [close] + [] == [close];
    Assoc5([open], Pad(gap), joined, ClosePad(gap, mind), [close]);
    if gap == [] {
      assert [COMMA] + Pad(gap) == [COMMA];
      assert [open] + [] + joined + [] + [close] == [open] + joined + [close];
    } else {
      assert [COMMA] + Pad(gap) == [COMMA, NL] + gap;
      assert [open, NL] + gap == [open] + Pad(gap);
      Assoc([open] + Pad(gap) + joined, [NL], mind);
    }
  }

  lemma ArrText(items: seq<Json>, mind: Text, indent: Text)
    ensures Bracketed(LBRACKET, ItemParts(items, mind + indent, indent), RBRACKET, mind + indent, mind) ==
            Layout(JArr(items), mind, indent, [])
  {
    var g := mind + indent;
    if items != [] {
      var close := ClosePad(g, mind) + ([RBRACKET] + []);
      calc {
        Bracketed(LBRACKET, ItemParts(items, g, indent), RBRACKET, g, mind);
        { BracketedText(LBRACKET, ItemParts(items, g, indent), RBRACKET, g, mind); }
        [LBRACKET] + (Pad(g) + (Join(ItemParts(items, g, indent), [COMMA] + Pad(g)) + close));
        { JoinItems(items, g, indent); }
        [LBRACKET] + (Pad(g) + (Items(items, g, indent, []) + close));
        { ItemsRest(items, g, indent, close); }
        [LBRACKET] + (Pad(g) + Items(items, g, indent, close));
        Layout(JArr(items), mind, indent, []);
      }
    }
  }

  lemma ObjText(props: seq<Prop>, mind: Text, indent: Text)
    ensures Bracketed(LBRACE, PropParts(props, mind + indent, indent), RBRACE, mind + indent, mind) ==
            Layout(JObj(props), mind, indent, [])
  {
    var g := mind + indent;
    if props != [] {
      var close := ClosePad(g, mind) + ([RBRACE] + []);
      calc {
        Bracketed(LBRACE, PropParts(props, g, indent), RBRACE, g, mind);
        { BracketedText(LBRACE, PropParts(props, g, indent), RBRACE, g, mind); }
        [LBRACE] + (Pad(g) + (Join(PropParts(props, g, indent), [COMMA] + Pad(g)) + close));
        { JoinProps(props, g, indent); }
        [LBRACE] + (Pad(g) + (Props(props, g, indent, []) + close));
        { PropsRest(props, g, indent, close); }
        [LBRACE] + (Pad(g) + Props(props, g, indent, close));
        Layout(JObj(props), mind, indent, []);
      }
    }
  }

  function Quote(s: Text): Text {
    StringText(s, [])
  }

  /** What `JSON2.stringify` accepts as its third argument. */
  datatype Spacing = NoSpacing | Count(n: int) | Literal(t: Text)

  function Indent(space: Spacing): Text {
    match space
    case NoSpacing => []
    case Count(n) => if n <= 0 then [] else seq(n, _ => SPACE)
    case Literal(t) => t
  }

  function Expected(v: Value, gap: Text, indent: Text): Option<Text> {
    match Erase(v)
    case None => None
    case Some(j) => Some(Layout(j, gap, indent, []))
  }

  /** The closure of json2.js: `gap` and `indent` are shared by all recursive calls. */
  class Stringifier {
    var gap: Text
    var indent: Text

    constructor ()
      ensures gap == [] && indent == []
    {
      gap, indent := [], [];
    }

    method Str(value: Value) returns (r: Option<Text>)
      modifies this
      ensures gap == old(gap) && indent == old(indent)
      ensures r == Expected(value, old(gap), old(indent))
      decreases value, 0
    {
      var mind := gap;
      match value {
        case Undef => return None;
        case Null => r := Some(NULL_TEXT);
        case Bool(b) => r := Some(if b then TRUE_TEXT else FALSE_TEXT);
        case NonFinite => r := Some(NULL_TEXT);
        case Int(n) => r := Some(IntText(n));
        case Str(s) => return Some(Quote(s));
        case Arr(items) =>
          gap := gap + indent;
          var partial := StrItems(items);
          r := Some(Bracketed(LBRACKET, partial, RBRACKET, gap, mind));
          ArrText(EraseItems(items), mind, indent);
          gap := mind;
          return;
        case Obj(members) =>
          gap := gap + indent;
          var partial := StrMembers(members);
          r := Some(Bracketed(LBRACE, partial, RBRACE, gap, mind));
          ObjText(EraseMembers(members), mind, indent);
          gap := mind;
          return;
      }
      assert r.value + [] == r.value;
    }

    /** The array loop of `str`; a missing text becomes 'null'. */
    method StrItems(items: seq<Value>) returns (partial: seq<Text>)
      modifies this
      ensures gap == old(gap) && indent == old(indent)
      ensures partial == ItemParts(EraseItems(items), gap, indent)
      decreases items, 0
    {
      partial := [];
      for i := 0 to |items|
        invariant gap == old(gap) && indent == old(indent)
        invariant partial == ItemParts(EraseItems(items[..i]), gap, indent)
      {
        var s := Str(items[i]);
        assert NULL_TEXT + [] == NULL_TEXT;
        partial := partial + [match s case Some(t) => t case None => NULL_TEXT];
        EraseItemsSnoc(items[..i], items[i]);
        assert items[..i + 1] == items[..i] + [items[i]];
      }
      assert items[..|items|] == items;
    }

    /** The member loop of `str`; a missing text drops the member. */
    method StrMembers(members: seq<Member>) returns (partial: seq<Text>)
      modifies this
      ensures gap == old(gap) && indent == old(indent)
      ensures partial == PropParts(EraseMembers(members), gap, indent)
      decreases members, 0
    {
      partial := [];
      for i := 0 to |members|
        invariant gap == old(gap) && indent == old(indent)
        invariant partial == PropParts(EraseMembers(members[..i]), gap, indent)
      {
        var v := Str(members[i].val);
        if v.Some? {
          partial := partial + [Quote(members[i].key) + (if gap != [] then [COLON, SPACE] else [COLON]) + v.value];
        }
        EraseMembersSnoc(members[..i], members[i]);
        assert members[..i + 1] == members[..i] + [members[i]];
      }
      assert members[..|members|] == members;
    }

    method Stringify(value: Value, space: Spacing) returns (r: Option<Text>)
      modifies this
      ensures gap == [] && indent == Indent(space)
      ensures r == match Erase(value) case None => None case Some(j) => Some(Print(j, Indent(space)))
    {
      gap := [];
      indent := [];
      match space {
        case NoSpacing =>
        case Count(n) =>
          var i := 0;
          while i < n
            invariant 0 <= i && (i <= n || i == 0)
            invariant gap == [] && indent == seq(i, _ => SPACE)
          {
            indent := indent + [SPACE];
            i := i + 1;
          }
        case Literal(t) => indent := t;
      }
      r := Str(value);
    }
  }

  lemma {:induction false} EraseItemsSnoc(items: seq<Value>, v: Value)
    ensures EraseItems(items + [v]) == EraseItems(items) + [match Erase(v) case None => JNull case Some(j) => j]
    decreases |items|
  {
    if items != [] {
      EraseItemsSnoc(items[1..], v);
      assert (items + [v])[1..] == items[1..] + [v];
    }
  }

  lemma {:induction false} EraseMembersSnoc(members: seq<Member>, m: Member)
    ensures EraseMembers(members + [m]) ==
            EraseMembers(members) + match Erase(m.val) case None => [] case Some(j) => [Prop(m.key, j)]
    decreases |members|
  {
    if members != [] {
      EraseMembersSnoc(members[1..], m);
      assert (members + [m])[1..] == members[1..] + [m];
    } else {
      assert (members + [m])[1..] == [];
    }
  }
}
