/** `JSON2.parse` without a reviver. `eval` on accepted text is a reader for the grammar of
    sections 2 to 7 of RFC 8259, with the white space of ECMAScript; a repeated member name
    is an error, as in strict code (section 11.1.5 of ECMA-262 edition 5.1). */
module JsonReader {
  import opened Wrappers
  import opened JsonText
  import opened JsonGate

  datatype Read<+T> = Fail | Got(value: T, rest: Text)

  function SkipSpace(t: Text): (r: Text)
    ensures |r| <= |t|
  {
    t[SpaceRun(t)..]
  }

  /** The unit a short escape stands for. */
  function Unmeta(c: Code): Option<Code> {
    if c == 98 then Some(8)
    else if c == 116 then Some(TAB)
    else if c == 110 then Some(NL)
    else if c == 102 then Some(12)
    else if c == 114 then Some(CR)
    else if c == QUOTE || c == BACKSLASH || c == 47 then Some(c)
    else None
  }

  /** The unit an escape stands for. */
  function EscapedUnit(t: Text): Code
    requires EscapeLen(t) > 0
  {
    if EscapeLen(t) == 2 then Unmeta(t[1]).value
    else 4096 * HexValue(t[2]) + 256 * HexValue(t[3]) + 16 * HexValue(t[4]) + HexValue(t[5])
  }

  function Prepend(c: Code, r: Read<Text>): Read<Text> {
    match r
    case Fail => Fail
    case Got(s, rest) => Got([c] + s, rest)
  }

  /** A string after its opening quotation mark. */
  function ReadBody(t: Text): (r: Read<Text>)
    ensures r.Got? ==> |r.rest| < |t|
  {
    if t == [] then Fail
    else if t[0] == QUOTE then Got([], t[1..])
    else if t[0] == BACKSLASH then
      if EscapeLen(t) > 0 then Prepend(EscapedUnit(t), ReadBody(t[EscapeLen(t)..])) else Fail
    else if t[0] < 0x20 then Fail
    else Prepend(t[0], ReadBody(t[1..]))
  }

  function DigitsValue(t: Text): (n: nat)
    requires forall c | c in t :: IsDigit(c)
  {
    if t == [] then 0
    else
      assert IsDigit(t[|t| - 1]);
      10 * DigitsValue(t[..|t| - 1]) + (t[|t| - 1] as int - 48)
  }

  lemma {:induction false} RunDigits(t: Text)
    ensures forall c | c in t[..DigitRun(t)] :: IsDigit(c)
  {
    if t != [] && IsDigit(t[0]) {
      RunDigits(t[1..]);
      assert t[..DigitRun(t)] == [t[0]] + t[1..][..DigitRun(t[1..])];
    }
  }

  function ReadNumber(t: Text): (r: Read<int>)
    ensures r.Got? ==> |r.rest| < |t|
  {
    var s := if t != [] && t[0] == MINUS then 1 else 0;
    var d := DigitRun(t[s..]);
    if d == 0 || (d > 1 && t[s] == 48) || !EndsNumber(t[s + d..]) then Fail
    else
      RunDigits(t[s..]);
      var n: int := DigitsValue(t[s..][..d]);
      Got(if s == 1 then -n else n, t[s + d..])
  }

  function ReadValue(t: Text): (r: Read<Json>)
    ensures r.Got? ==> |r.rest| < |t|
    decreases |t|, 0
  {
    var u := SkipSpace(t);
    if u == [] then Fail
    else if u[0] == LBRACKET then
      var w := SkipSpace(u[1..]);
      if w != [] && w[0] == RBRACKET then Got(JArr([]), w[1..])
      else
        match ReadItems(u[1..])
        case Fail => Fail
        case Got(items, rest) => Got(JArr(items), rest)
    else if u[0] == LBRACE then
      var w := SkipSpace(u[1..]);
      if w != [] && w[0] == RBRACE then Got(JObj([]), w[1..])
      else
        match ReadProps(u[1..])
        case Fail => Fail
        case Got(props, rest) => Got(JObj(props), rest)
    else ReadScalar(u)
  }

  function ReadScalar(u: Text): (r: Read<Json>)
    ensures r.Got? ==> |r.rest| < |u|
  {
    if u != [] && u[0] == QUOTE then
      match ReadBody(u[1..])
      case Fail => Fail
      case Got(s, rest) => Got(JStr(s), rest)
    else if NULL_TEXT <= u then Got(JNull, u[4..])
    else if TRUE_TEXT <= u then Got(JBool(true), u[4..])
    else if FALSE_TEXT <= u then Got(JBool(false), u[5..])
    else
      match ReadNumber(u)
      case Fail => Fail
      case Got(n, rest) => Got(JInt(n), rest)
  }

  /** The elements of an array up to its closing bracket. */
  function ReadItems(t: Text): (r: Read<seq<Json>>)
    ensures r.Got? ==> |r.rest| < |t|
    decreases |t|, 1
  {
    match ReadValue(t)
    case Fail => Fail
    case Got(v, rest) =>
      var u := SkipSpace(rest);
      if u != [] && u[0] == RBRACKET then Got([v], u[1..])
      else if u != [] && u[0] == COMMA then
        match ReadItems(u[1..])
        case Fail => Fail
        case Got(vs, more) => Got([v] + vs, more)
      else Fail
  }

  predicate HasKey(props: seq<Prop>, key: Text) {
    exists i | 0 <= i < |props| :: props[i].key == key
  }

  /** A member name and its colon. */
  function ReadKey(t: Text): (r: Read<Text>)
    ensures r.Got? ==> |r.rest| < |t|
  {
    var u := SkipSpace(t);
    if u == [] || u[0] != QUOTE then Fail
    else
      match ReadBody(u[1..])
      case Fail => Fail
      case Got(key, rest) =>
        var w := SkipSpace(rest);
        if w != [] && w[0] == COLON then Got(key, w[1..]) else Fail
  }

  /** The members of an object up to its closing brace. */
  function ReadProps(t: Text): (r: Read<seq<Prop>>)
    ensures r.Got? ==> |r.rest| < |t|
    decreases |t|, 1
  {
    match ReadKey(t)
    case Fail => Fail
    case Got(key, after) =>
      match ReadValue(after)
      case Fail => Fail
      case Got(v, rest) =>
        var u := SkipSpace(rest);
        if u != [] && u[0] == RBRACE then Got([Prop(key, v)], u[1..])
        else if u != [] && u[0] == COMMA then
          match ReadProps(u[1..])
          case Fail => Fail
          case Got(ps, more) => if HasKey(ps, key) then Fail else Got([Prop(key, v)] + ps, more)
        else Fail
  }

  /** A whole text with nothing but white space after its value. */
  function ReadText(t: Text): Option<Json> {
    match ReadValue(t)
    case Fail => None
    case Got(j, rest) => if SkipSpace(rest) == [] then Some(j) else None
  }

  /** `Rejected` is the SyntaxError thrown by `parse`, `Broken` the one thrown by `eval`. */
  datatype Outcome = Parsed(value: Json) | Rejected | Broken

  function Parse(text: Text): Outcome {
    var t := PreEscape(text);
    if !Accepts(t) then Rejected
    else
      match ReadText(t)
      case None => Broken
      case Some(j) => Parsed(j)
  }
}
