/** Texts as the 16-bit units of an ECMAScript string, the character classes
    json2.js writes as regular expressions, and the values its printer takes. */
module JsonText {
  import opened Wrappers

  type Code = c: int | 0 <= c < 0x1_0000
  type Text = seq<Code>

  const TAB: Code := 9
  const NL: Code := 10
  const CR: Code := 13
  const SPACE: Code := 32
  const QUOTE: Code := 34
  const COMMA: Code := 44
  const MINUS: Code := 45
  const COLON: Code := 58
  const AT: Code := 64
  const LBRACKET: Code := 91
  const BACKSLASH: Code := 92
  const RBRACKET: Code := 93
  const LBRACE: Code := 123
  const RBRACE: Code := 125

  const NULL_TEXT: Text := [110, 117, 108, 108]
  const TRUE_TEXT: Text := [116, 114, 117, 101]
  const FALSE_TEXT: Text := [102, 97, 108, 115, 101]

  /** The class `cx`: units that some engines mistreat in `eval`. */
  predicate IsCx(c: Code) {
    || c == 0 || c == 0xad || 0x600 <= c <= 0x604 || c == 0x70f || c == 0x17b4 || c == 0x17b5
    || 0x200c <= c <= 0x200f || 0x2028 <= c <= 0x202f || 0x2060 <= c <= 0x206f
    || c == 0xfeff || 0xfff0 <= c
  }

  /** The class `escapable`: what a printed string never holds unescaped. */
  predicate IsEscapable(c: Code) {
    c == BACKSLASH || c == QUOTE || c < 0x20 || 0x7f <= c <= 0x9f || IsCx(c)
  }

  /** `\s`: WhiteSpace and LineTerminator of sections 7.2, 7.3 and 15.10.2.12 of ECMA-262 edition 5.1. */
  predicate IsSpace(c: Code) {
    || 9 <= c <= 13 || c == SPACE || c == 0xa0 || c == 0x1680 || c == 0x180e
    || 0x2000 <= c <= 0x200a || c == 0x2028 || c == 0x2029 || c == 0x202f
    || c == 0x205f || c == 0x3000 || c == 0xfeff
  }

  predicate IsDigit(c: Code) {
    48 <= c <= 57
  }

  predicate IsHex(c: Code) {
    IsDigit(c) || 97 <= c <= 102 || 65 <= c <= 70
  }

  /** `t` does not go on with anything that could belong to a number. */
  predicate EndsNumber(t: Text) {
    t == [] || !(IsDigit(t[0]) || t[0] == 46 || t[0] == 101 || t[0] == 69)
  }

  ghost predicate AllSpace(t: Text) {
    forall c | c in t :: IsSpace(c)
  }

  ghost predicate NoCx(t: Text) {
    forall c | c in t :: !IsCx(c)
  }

  /** `toString(16)` gives lower-case digits. */
  function HexDigit(d: int): Code
    requires 0 <= d < 16
  {
    if d < 10 then 48 + d else 87 + d
  }

  function HexValue(c: Code): (d: int)
    requires IsHex(c)
    ensures 0 <= d < 16
  {
    if c <= 57 then c - 48 else if c >= 97 then c - 87 else c - 55
  }

  /** A backslash, `u` and the last four digits of '0000' followed by the hexadecimal code. */
  function UnicodeEscape(c: Code): Text {
    [BACKSLASH, 117, HexDigit(c / 4096), HexDigit(c / 256 % 16), HexDigit(c / 16 % 16), HexDigit(c % 16)]
  }

  /** What `JSON2.stringify` can be handed. `Undef` stands for undefined and for functions,
      for which `str` returns undefined; `NonFinite` for NaN and the infinities.
      Members are listed in enumeration order. */
  datatype Value =
    | Undef
    | Null
    | Bool(b: bool)
    | NonFinite
    | Int(n: int)
    | Str(s: Text)
    | Arr(items: seq<Value>)
    | Obj(members: seq<Member>)

  datatype Member = Member(key: Text, val: Value)

  /** What JSON text can say. */
  datatype Json =
    | JNull
    | JBool(b: bool)
    | JInt(n: int)
    | JStr(s: Text)
    | JArr(items: seq<Json>)
    | JObj(props: seq<Prop>)

  datatype Prop = Prop(key: Text, val: Json)

  /** The part of a value that JSON can say: undefined array elements and non-finite
      numbers become null, undefined members disappear. */
  function Erase(v: Value): Option<Json>
    decreases v, 0
  {
    match v
    case Undef => None
    case Null => Some(JNull)
    case Bool(b) => Some(JBool(b))
    case NonFinite => Some(JNull)
    case Int(n) => Some(JInt(n))
    case Str(s) => Some(JStr(s))
    case Arr(items) => Some(JArr(EraseItems(items)))
    case Obj(members) => Some(JObj(EraseMembers(members)))
  }

  function EraseItems(items: seq<Value>): (r: seq<Json>)
    ensures |r| == |items|
    decreases items, 0
  {
    if items == [] then []
    else [match Erase(items[0]) case None => JNull case Some(j) => j] + EraseItems(items[1..])
  }

  function EraseMembers(members: seq<Member>): (r: seq<Prop>)
    decreases members, 0
  {
    if members == [] then []
    else
      var rest := EraseMembers(members[1..]);
      match Erase(members[0].val)
      case None => rest
      case Some(j) => [Prop(members[0].key, j)] + rest
  }

  ghost predicate DistinctKeys(props: seq<Prop>) {
    forall i, j | 0 <= i < j < |props| :: props[i].key != props[j].key
  }

  /** An object cannot have the same own property twice. */
  ghost predicate WellFormed(j: Json)
    decreases j, 0
  {
    match j
    case JArr(items) => forall i | 0 <= i < |items| :: WellFormed(items[i])
    case JObj(props) => DistinctKeys(props) && forall i | 0 <= i < |props| :: WellFormed(props[i].val)
    case _ => true
  }

  /** The same for what `stringify` is handed. */
  ghost predicate Realizable(v: Value)
    decreases v, 0
  {
    match v
    case Arr(items) => forall i | 0 <= i < |items| :: Realizable(items[i])
    case Obj(members) =>
      && (forall i, j | 0 <= i < j < |members| :: members[i].key != members[j].key)
      && forall i | 0 <= i < |members| :: Realizable(members[i].val)
    case _ => true
  }
}
