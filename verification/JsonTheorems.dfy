/** What json2.js promises about `JSON2.stringify` and `JSON2.parse` together. */
module JsonTheorems {
  import opened Wrappers
  import opened JsonText
  import opened JsonPrinter
  import opened JsonGate
  import opened JsonReader
  import opened JsonParsing
  import opened JsonRoundTrip
  import opened JsonGrammar
  import opened JsonGrammarTheorems

  // ----- what a value says

  /** What JSON can say of a value: the same null, booleans, integers and units, elements at the same places
      and defined members in order; null for what is no finite number and for undefined elements. */
  ghost predicate Says(v: Value, j: Json)
    decreases v, 0
  {
    match v
    case Undef => false
    case Null => j == JNull
    case NonFinite => j == JNull
    case Bool(b) => j.JBool? && (j.b <==> b)
    case Int(n) => j.JInt? && j.n == n
    case Str(s) => j.JStr? && j.s == s
    case Arr(items) =>
      && j.JArr? && |j.items| == |items|
      && forall i | 0 <= i < |items| :: PlaceSays(items[i], j.items[i])
    case Obj(members) => j.JObj? && MembersSay(members, j.props)
  }

  /** Undefined array elements leave a null in their place. */
  ghost predicate PlaceSays(v: Value, j: Json)
    decreases v, 1
  {
    if v.Undef? then j == JNull else Says(v, j)
  }

  ghost predicate MembersSay(members: seq<Member>, props: seq<Prop>)
    decreases members, 0
  {
    if members == [] then props == []
    else if members[0].val.Undef? then MembersSay(members[1..], props)
    else
      && props != [] && props[0].key == members[0].key && Says(members[0].val, props[0].val)
      && MembersSay(members[1..], props[1..])
  }

  /** Erasing a value leaves exactly what it says. */
  lemma {:induction false} EraseSays(v: Value, j: Json)
    ensures Erase(v) == Some(j) <==> Says(v, j)
    ensures v.Undef? <==> Erase(v) == None
    decreases v, 0
  {
    match v
    case Arr(items) => if j.JArr? { ItemsSay(items, j.items); }
    case Obj(members) => if j.JObj? { MembersErased(members, j.props); }
    case _ =>
  }

  lemma {:induction false} ItemsSay(items: seq<Value>, js: seq<Json>)
    ensures EraseItems(items) == js <==>
            |js| == |items| && forall i | 0 <= i < |items| :: PlaceSays(items[i], js[i])
    decreases items, 0
  {
    hide Erase, Says;
    if items != [] && js != [] {
      var v, j := items[0], js[0];
      EraseSays(v, j);
      ItemsSay(items[1..], js[1..]);
      assert js == [j] + js[1..];
      var first := match Erase(v) case None => JNull case Some(k) => k;
      assert first == j <==> PlaceSays(v, j);
      assert EraseItems(items) == js <==> first == j && EraseItems(items[1..]) == js[1..];
      AllOrHead(items, js);
    }
  }

  lemma AllOrHead(items: seq<Value>, js: seq<Json>)
    requires items != [] && js != []
    ensures (|js| == |items| && forall i | 0 <= i < |items| :: PlaceSays(items[i], js[i])) <==>
            PlaceSays(items[0], js[0])
            && |js[1..]| == |items[1..]| && forall i | 0 <= i < |items[1..]| :: PlaceSays(items[1..][i], js[1..][i])
  {
    hide PlaceSays;
    if |js| == |items| && PlaceSays(items[0], js[0]) && forall i | 0 <= i < |items[1..]| :: PlaceSays(items[1..][i], js[1..][i]) {
      forall i | 0 <= i < |items|
        ensures PlaceSays(items[i], js[i])
      {
        assert i > 0 ==> PlaceSays(items[1..][i - 1], js[1..][i - 1]);
      }
    }
  }

  lemma {:induction false} MembersErased(members: seq<Member>, props: seq<Prop>)
    ensures EraseMembers(members) == props <==> MembersSay(members, props)
    decreases members, 0
  {
    hide Erase, Says;
    if members != [] {
      var m := members[0];
      if m.val.Undef? {
        EraseSays(m.val, JNull);
        MembersErased(members[1..], props);
      } else if props != [] {
        EraseSays(m.val, props[0].val);
        MembersErased(members[1..], props[1..]);
        assert props == [props[0]] + props[1..];
      } else {
        EraseSays(m.val, JNull);
      }
    }
  }

  /** Everything but undefined says exactly one thing. */
  lemma SaysOneThing(v: Value)
    ensures !v.Undef? <==> exists j :: Says(v, j)
    ensures forall j, k | Says(v, j) && Says(v, k) :: j == k
  {
    hide Says, Erase;
    forall j
      ensures Erase(v) == Some(j) <==> Says(v, j)
      ensures v.Undef? <==> Erase(v) == None
    {
      EraseSays(v, j);
    }
    if !v.Undef? {
      EraseSays(v, JNull);
      assert Says(v, Erase(v).value);
    }
  }

  /** A value that says `j`. */
  function Embed(j: Json): Value
    decreases j, 0
  {
    match j
    case JNull => Null
    case JBool(b) => Bool(b)
    case JInt(n) => Int(n)
    case JStr(s) => Str(s)
    case JArr(items) => Arr(seq(|items|, i requires 0 <= i < |items| => Embed(items[i])))
    case JObj(props) => Obj(seq(|props|, i requires 0 <= i < |props| => Member(props[i].key, Embed(props[i].val))))
  }

  // ----- erasing keeps keys distinct

  lemma {:induction false} ErasedIsWellFormed(v: Value)
    requires Realizable(v)
    ensures Erase(v).Some? ==> WellFormed(Erase(v).value)
    decreases v, 0
  {
    match v
    case Arr(items) => ErasedItems(items);
    case Obj(members) => ErasedMembers(members);
    case _ =>
  }

  lemma {:induction false} ErasedItems(items: seq<Value>)
    requires forall i | 0 <= i < |items| :: Realizable(items[i])
    ensures forall i | 0 <= i < |items| :: WellFormed(EraseItems(items)[i])
    decreases items, 0
  {
    if items != [] {
      ErasedIsWellFormed(items[0]);
      ErasedItems(items[1..]);
    }
  }

  lemma {:induction false} ErasedMembers(members: seq<Member>)
    requires forall i, j | 0 <= i < j < |members| :: members[i].key != members[j].key
    requires forall i | 0 <= i < |members| :: Realizable(members[i].val)
    ensures var ps := EraseMembers(members);
            && DistinctKeys(ps)
            && (forall i | 0 <= i < |ps| :: WellFormed(ps[i].val))
            && forall i | 0 <= i < |ps| :: exists k | 0 <= k < |members| :: members[k].key == ps[i].key
    decreases members, 0
  {
    hide Erase, Realizable, WellFormed;
    if members != [] {
      ErasedIsWellFormed(members[0].val);
      ErasedMembers(members[1..]);
      var ps, rest := EraseMembers(members), EraseMembers(members[1..]);
      forall i | 0 <= i < |rest|
        ensures rest[i].key != members[0].key
        ensures exists k | 0 <= k < |members| :: members[k].key == rest[i].key
      {
        var k :| 0 <= k < |members[1..]| && members[1..][k].key == rest[i].key;
        assert members[k + 1] == members[1..][k];
      }
      if Erase(members[0].val).Some? {
        forall i | 0 <= i < |ps|
          ensures exists k | 0 <= k < |members| :: members[k].key == ps[i].key
        {
          assert i == 0 ==> members[0].key == ps[i].key;
          assert i > 0 ==> ps[i] == rest[i - 1];
        }
      }
    }
  }

  // ----- printed text holds no unit of the class `cx` but in its indent

  lemma EscapeNoCx(c: Code)
    ensures NoCx(Escape(c))
  {
  }

  lemma {:induction false} BodyNoCx(s: Text, rest: Text)
    requires NoCx(rest)
    ensures NoCx(Body(s, rest))
  {
    hide IsCx, Escape;
    if s != [] {
      BodyNoCx(s[1..], rest);
      EscapeNoCx(s[0]);
    }
  }

  lemma MarksNoCx()
    ensures NoCx([QUOTE, COMMA, COLON, SPACE, NL, LBRACKET, RBRACKET, LBRACE, RBRACE])
    ensures NoCx(NULL_TEXT) && NoCx(TRUE_TEXT) && NoCx(FALSE_TEXT)
    ensures !IsCx(QUOTE) && !IsCx(COMMA) && !IsCx(COLON) && !IsCx(SPACE) && !IsCx(NL)
    ensures !IsCx(LBRACKET) && !IsCx(RBRACKET) && !IsCx(LBRACE) && !IsCx(RBRACE)
  {
  }

  lemma IntNoCx(n: int)
    ensures NoCx(IntText(n))
  {
    DigitsOfNat(if n < 0 then -n else n);
  }

  lemma StringNoCx(s: Text, rest: Text)
    requires NoCx(rest)
    ensures NoCx(StringText(s, rest))
  {
    hide IsCx, Escape;
    MarksNoCx();
    BodyNoCx(s, [QUOTE] + rest);
  }

  lemma {:induction false} LayoutNoCx(j: Json, gap: Text, indent: Text, rest: Text)
    requires NoCx(gap) && NoCx(indent) && NoCx(rest)
    ensures NoCx(Layout(j, gap, indent, rest))
    decreases j, 0
  {
    hide IsCx, StringText;
    MarksNoCx();
    var g := gap + indent;
    match j
    case JInt(n) => IntNoCx(n);
    case JStr(s) => StringNoCx(s, rest);
    case JArr(items) => ItemsNoCx(items, g, indent, ClosePad(g, gap) + ([RBRACKET] + rest));
    case JObj(props) => PropsNoCx(props, g, indent, ClosePad(g, gap) + ([RBRACE] + rest));
    case _ =>
  }

  lemma {:induction false} ItemsNoCx(items: seq<Json>, gap: Text, indent: Text, rest: Text)
    requires NoCx(gap) && NoCx(indent) && NoCx(rest)
    ensures NoCx(Items(items, gap, indent, rest))
    decreases items, 0
  {
    hide IsCx, Layout;
    MarksNoCx();
    if |items| == 1 {
      LayoutNoCx(items[0], gap, indent, rest);
    } else if items != [] {
      ItemsNoCx(items[1..], gap, indent, rest);
      LayoutNoCx(items[0], gap, indent, [COMMA] + (Pad(gap) + Items(items[1..], gap, indent, rest)));
    }
  }

  lemma {:induction false} PropsNoCx(props: seq<Prop>, gap: Text, indent: Text, rest: Text)
    requires NoCx(gap) && NoCx(indent) && NoCx(rest)
    ensures NoCx(Props(props, gap, indent, rest))
    decreases props, 0
  {
    hide IsCx, Layout, StringText;
    MarksNoCx();
    if props != [] {
      PropsNoCx(props[1..], gap, indent, rest);
      var tail := if |props| == 1 then rest
                  else [COMMA] + (Pad(gap) + Props(props[1..], gap, indent, rest));
      LayoutNoCx(props[0].val, gap, indent, tail);
      StringNoCx(props[0].key, ColonText(gap) + Layout(props[0].val, gap, indent, tail));
    }
  }

  lemma PrintedReads(j: Json, indent: Text)
    requires WellFormed(j) && AllSpace(indent)
    ensures ReadText(Print(j, indent)) == Some(j)
  {
    hide ReadValue, Layout;
    ReadLayout(j, [], indent, []);
    assert SkipSpace([]) == [];
  }

  /** For any nesting and any white-space indent free of `cx` units, the pre-escape pass
      changes nothing and the text passes the gate. */
  lemma PrintedPassesGate(j: Json, indent: Text)
    requires WellFormed(j) && AllSpace(indent) && NoCx(indent)
    ensures PreEscape(Print(j, indent)) == Print(j, indent)
    ensures Accepts(Print(j, indent))
  {
    hide Layout, ReadText, Accepts;
    LayoutNoCx(j, [], indent, []);
    PreEscapeNothing(Print(j, indent));
    PrintedReads(j, indent);
    ParseReads(Print(j, indent));
  }

  // ----- indents with a `cx` unit

  /** A value whose text shows the indent. */
  predicate IsNested(j: Json) {
    match j
    case JArr(items) => items != []
    case JObj(props) => props != []
    case _ => false
  }

  lemma {:induction false} CxInSpaces(w: Text, t: Text)
    requires AllSpace(w) && CxInStrings(false, w + t)
    ensures NoCx(w)
  {
    hide IsCx;
    if w != [] {
      assert (w + t)[0] == w[0] && (w + t)[1..] == w[1..] + t;
      assert w == [w[0]] + w[1..];
      assert IsSpace(w[0]) && !IsSpace(QUOTE);
      CxInSpaces(w[1..], t);
    }
  }

  /** The text of a nested value up to its first indent. */
  lemma NestedText(j: Json, indent: Text) returns (open: Code, rest: Text)
    requires IsNested(j) && indent != []
    ensures open == LBRACKET || open == LBRACE
    ensures Print(j, indent) == [open] + ([NL] + (indent + rest))
  {
    assert [] + indent == indent;
    if j.JArr? {
      open, rest := LBRACKET, Items(j.items, indent, indent, ClosePad(indent, []) + ([RBRACKET] + []));
    } else {
      open, rest := LBRACE, Props(j.props, indent, indent, ClosePad(indent, []) + ([RBRACE] + []));
    }
    Assoc([NL], indent, rest);
  }

  lemma DirtyIndent(j: Json, indent: Text)
    requires IsNested(j) && AllSpace(indent) && !NoCx(indent)
    ensures !CxInStrings(false, Print(j, indent))
  {
    hide IsCx, Print, IsNested;
    var open, rest := NestedText(j, indent);
    var t := Print(j, indent);
    assert t[0] == open && t[1] == NL && t[1..][1..] == indent + rest;
    if CxInStrings(false, t) {
      assert CxInStrings(false, t[1..]);
      CxInSpaces(indent, rest);
    }
  }

  // ----- the main theorem

  /** The printed text of a value means what the value says, and parsing it gives that back, whatever the
      nesting and the white-space indent; the one exception is a nested value printed with an indent
      that holds a unit of the class `cx`, and that text is always refused. */
  lemma RoundTrip(v: Value, space: Spacing, j: Json)
    requires Realizable(v) && AllSpace(Indent(space)) && Says(v, j)
    ensures var text := Expected(v, [], Indent(space));
            && text.Some? && TextMeans(text.value, j)
            && Parse(text.value) == if NoCx(Indent(space)) || !IsNested(j) then Parsed(j) else Rejected
  {
    hide Parse, ReadText, NoCx, CxInStrings, WellFormed, Layout, Erase, Says, TextMeans;
    var indent := Indent(space);
    EraseSays(v, j);
    ErasedIsWellFormed(v);
    ParseReads(Print(j, indent));
    PrintedReads(j, indent);
    ReaderIsGrammar(Print(j, indent), j);
    if NoCx(indent) {
      PrintIsClean(j, indent);
    } else if IsNested(j) {
      DirtyIndent(j, indent);
    } else {
      FlatText(j, indent);
      PrintIsClean(j, []);
    }
  }

  lemma PrintIsClean(j: Json, indent: Text)
    requires NoCx(indent)
    ensures CxInStrings(false, Print(j, indent))
  {
    hide Layout, CxInStrings;
    LayoutNoCx(j, [], indent, []);
    NoCxAnywhere(false, Print(j, indent));
  }

  lemma FlatText(j: Json, indent: Text)
    requires !IsNested(j)
    ensures Print(j, indent) == Print(j, []) && NoCx([])
  {
  }

  lemma {:induction false} EmbedSays(j: Json)
    requires WellFormed(j)
    ensures Says(Embed(j), j) && Realizable(Embed(j))
    decreases j, 0
  {
    match j
    case JArr(items) =>
      forall i | 0 <= i < |items|
        ensures Says(Embed(items[i]), items[i]) && Realizable(Embed(items[i]))
      {
        EmbedSays(items[i]);
      }
    case JObj(props) =>
      forall i | 0 <= i < |props|
        ensures Says(Embed(props[i].val), props[i].val) && Realizable(Embed(props[i].val))
      {
        EmbedSays(props[i].val);
      }
      EmbedMembers(props);
    case _ =>
  }

  lemma {:induction false} EmbedMembers(props: seq<Prop>)
    requires forall i | 0 <= i < |props| :: Says(Embed(props[i].val), props[i].val)
    ensures var ms := seq(|props|, i requires 0 <= i < |props| => Member(props[i].key, Embed(props[i].val)));
            MembersSay(ms, props)
    decreases |props|
  {
    hide Says;
    var ms := seq(|props|, i requires 0 <= i < |props| => Member(props[i].key, Embed(props[i].val)));
    if props != [] {
      EmbedMembers(props[1..]);
      assert ms[1..] == seq(|props[1..]|, i requires 0 <= i < |props[1..]| => Member(props[1..][i].key, Embed(props[1..][i].val)));
      SaysIsDefined(Embed(props[0].val), props[0].val);
    }
  }

  lemma SaysIsDefined(v: Value, j: Json)
    requires Says(v, j)
    ensures !v.Undef?
  {
  }

  /** Every JSON value survives being printed and parsed, with any white-space indent free of `cx` units. */
  lemma EveryJsonSurvives(j: Json, space: Spacing)
    requires WellFormed(j) && AllSpace(Indent(space)) && NoCx(Indent(space))
    ensures var text := Expected(Embed(j), [], Indent(space)); text.Some? && Parse(text.value) == Parsed(j)
  {
    hide WellFormed, Says, Parse, Expected, Realizable;
    EmbedSays(j);
    RoundTrip(Embed(j), space, j);
  }
}
