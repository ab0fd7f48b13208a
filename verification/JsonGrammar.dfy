/** What JSON text means, as a relation between texts and values: sections 2 to 7 of RFC 8259, with the
    white space of ECMAScript. Nothing here says how a text is read. */
module JsonGrammar {
  import opened JsonText

  /** The units of a string of plain characters. */
  function Units(s: string): Text {
    seq(|s|, i requires 0 <= i < |s| => if s[i] as int < 0x1_0000 then s[i] as int else 0)
  }

  const DIGITS: Text := [48, 49, 50, 51, 52, 53, 54, 55, 56, 57]
  const LOWER_HEX: Text := DIGITS + [97, 98, 99, 100, 101, 102]
  const UPPER_HEX: Text := DIGITS + [65, 66, 67, 68, 69, 70]

  /** What may follow a backslash, and the unit it stands for. */
  const SHORT_ESCAPES: seq<(Code, Code)> :=
    [(QUOTE, QUOTE), (BACKSLASH, BACKSLASH), (47, 47), (98, 8), (102, 12), (110, NL), (114, CR), (116, TAB)]

  /** The named units and texts are the characters they are called after. */
  lemma Spelling()
    ensures [QUOTE, BACKSLASH, COMMA, COLON, MINUS, AT, SPACE] == Units("\"\\,:-@ ")
    ensures [LBRACKET, RBRACKET, LBRACE, RBRACE] == Units("[]{}")
    ensures [TAB, NL, CR] == Units("\t\n\r")
    ensures NULL_TEXT == Units("null") && TRUE_TEXT == Units("true") && FALSE_TEXT == Units("false")
    ensures DIGITS == Units("0123456789")
    ensures LOWER_HEX == Units("0123456789abcdef") && UPPER_HEX == Units("0123456789ABCDEF")
    ensures forall i | 0 <= i < 8 :: SHORT_ESCAPES[i].0 == Units("\"\\/bfnrt")[i]
  {
  }

  // ----- numbers and strings

  ghost predicate DigitMeans(c: Code, d: int) {
    0 <= d < 10 && DIGITS[d] == c
  }

  ghost predicate HexMeans(c: Code, d: int) {
    0 <= d < 16 && (LOWER_HEX[d] == c || UPPER_HEX[d] == c)
  }

  ghost predicate NatMeans(t: Text, n: int) {
    && t != []
    && if |t| == 1 then DigitMeans(t[0], n)
       else NatMeans(t[..|t| - 1], n / 10) && DigitMeans(t[|t| - 1], n % 10)
  }

  /** Decimal digits without a needless zero in front, and possibly a sign. */
  ghost predicate IntMeans(t: Text, n: int) {
    var signed := t != [] && t[0] == MINUS;
    var digits := if signed then t[1..] else t;
    NatMeans(digits, if signed then -n else n) && (|digits| > 1 ==> digits[0] != DIGITS[0])
  }

  /** How one unit of a string may be written. */
  ghost predicate UnitMeans(t: Text, c: Code) {
    || (t == [c] && c >= 0x20 && c != QUOTE && c != BACKSLASH)
    || (|t| == 2 && t[0] == BACKSLASH && (t[1], c) in SHORT_ESCAPES)
    || (|t| == 6 && t[0] == BACKSLASH && t[1] == 117
        && HexMeans(t[2], c / 4096) && HexMeans(t[3], c / 256 % 16)
        && HexMeans(t[4], c / 16 % 16) && HexMeans(t[5], c % 16))
  }

  ghost predicate BodyMeans(t: Text, s: Text)
    decreases |s|
  {
    if s == [] then t == []
    else exists k | 0 < k <= |t| :: UnitMeans(t[..k], s[0]) && BodyMeans(t[k..], s[1..])
  }

  ghost predicate StringMeans(t: Text, s: Text) {
    |t| >= 2 && t[0] == QUOTE && t[|t| - 1] == QUOTE && BodyMeans(t[1..|t| - 1], s)
  }

  // ----- values

  /** A value without white space around it. */
  ghost predicate Means(t: Text, j: Json)
    decreases j, 0
  {
    match j
    case JNull => t == NULL_TEXT
    case JBool(b) => t == if b then TRUE_TEXT else FALSE_TEXT
    case JInt(n) => IntMeans(t, n)
    case JStr(s) => StringMeans(t, s)
    case JArr(items) =>
      && |t| >= 2 && t[0] == LBRACKET && t[|t| - 1] == RBRACKET
      && if items == [] then AllSpace(t[1..|t| - 1]) else ItemsMean(t[1..|t| - 1], items)
    case JObj(props) =>
      && |t| >= 2 && t[0] == LBRACE && t[|t| - 1] == RBRACE && DistinctKeys(props)
      && if props == [] then AllSpace(t[1..|t| - 1]) else PropsMean(t[1..|t| - 1], props)
  }

  /** A value with white space around it: a JSON text. */
  ghost predicate TextMeans(t: Text, j: Json)
    decreases j, 1
  {
    exists a, b | 0 <= a <= b <= |t| :: AllSpace(t[..a]) && AllSpace(t[b..]) && Means(t[a..b], j)
  }

  ghost predicate ItemsMean(t: Text, items: seq<Json>)
    requires items != []
    decreases items, 0
  {
    if |items| == 1 then TextMeans(t, items[0])
    else exists c | 0 <= c < |t| :: t[c] == COMMA && TextMeans(t[..c], items[0]) && ItemsMean(t[c + 1..], items[1..])
  }

  ghost predicate KeyMeans(t: Text, key: Text) {
    exists a, b | 0 <= a <= b <= |t| :: AllSpace(t[..a]) && AllSpace(t[b..]) && StringMeans(t[a..b], key)
  }

  ghost predicate PropMeans(t: Text, p: Prop)
    decreases p, 0
  {
    exists c | 0 <= c < |t| :: t[c] == COLON && KeyMeans(t[..c], p.key) && TextMeans(t[c + 1..], p.val)
  }

  ghost predicate PropsMean(t: Text, props: seq<Prop>)
    requires props != []
    decreases props, 0
  {
    if |props| == 1 then PropMeans(t, props[0])
    else exists c | 0 <= c < |t| :: t[c] == COMMA && PropMeans(t[..c], props[0]) && PropsMean(t[c + 1..], props[1..])
  }
}
