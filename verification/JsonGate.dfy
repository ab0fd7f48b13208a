/** The gate of `JSON2.parse`: the pre-escape and three rewriting passes. Each regular
    expression is a function that says how much of a text it matches at its start, and
    `replace` with the global flag is a left-to-right scan. */
module JsonGate {
  import opened JsonText

  /** `text.replace(cx, ...)`. */
  function PreEscape(t: Text): Text {
    if t == [] then []
    else (if IsCx(t[0]) then UnicodeEscape(t[0]) else [t[0]]) + PreEscape(t[1..])
  }

  /** `["\\\/bfnrt]` */
  predicate IsShortEscape(c: Code) {
    c in {QUOTE, BACKSLASH, 47, 98, 102, 110, 114, 116}
  }

  /** `\\(?:["\\\/bfnrt]|u[0-9a-fA-F]{4})` */
  function EscapeLen(t: Text): (n: nat)
    ensures n <= |t|
  {
    if |t| >= 2 && t[0] == BACKSLASH then
      if IsShortEscape(t[1]) then 2
      else if |t| >= 6 && t[1] == 117 && IsHex(t[2]) && IsHex(t[3]) && IsHex(t[4]) && IsHex(t[5]) then 6
      else 0
    else 0
  }

  /** First pass: escapes become '@'. */
  function MarkEscapes(t: Text): Text {
    if t == [] then []
    else
      var n := EscapeLen(t);
      if n > 0 then [AT] + MarkEscapes(t[n..]) else [t[0]] + MarkEscapes(t[1..])
  }

  /** `\d*` */
  function DigitRun(t: Text): (n: nat)
    ensures n <= |t|
  {
    if t != [] && IsDigit(t[0]) then 1 + DigitRun(t[1..]) else 0
  }

  /** `(?:\.\d*)?` */
  function FractionLen(t: Text): (n: nat)
    ensures n <= |t|
  {
    if t != [] && t[0] == 46 then 1 + DigitRun(t[1..]) else 0
  }

  /** `(?:[eE][+\-]?\d+)?` */
  function ExponentLen(t: Text): (n: nat)
    ensures n <= |t|
  {
    if t != [] && (t[0] == 101 || t[0] == 69) then
      var s := if |t| > 1 && (t[1] == 43 || t[1] == MINUS) then 2 else 1;
      var d := DigitRun(t[s..]);
      if d > 0 then s + d else 0
    else 0
  }

  /** `(?:\.\d*)?(?:[eE][+\-]?\d+)?` */
  function TailLen(t: Text): (n: nat)
    ensures n <= |t|
  {
    FractionLen(t) + ExponentLen(t[FractionLen(t)..])
  }

  /** `\d+(?:\.\d*)?(?:[eE][+\-]?\d+)?` */
  function UnsignedLen(t: Text): (n: nat)
    ensures n <= |t|
  {
    var d := DigitRun(t);
    if d == 0 then 0 else d + TailLen(t[d..])
  }

  /** `-?\d+(?:\.\d*)?(?:[eE][+\-]?\d+)?` */
  function NumberLen(t: Text): (n: nat)
    ensures n <= |t|
  {
    if t != [] && t[0] == MINUS then
      if UnsignedLen(t[1..]) == 0 then 0 else 1 + UnsignedLen(t[1..])
    else UnsignedLen(t)
  }

  /** `[^"\\\n\r]*` */
  function PlainRun(t: Text): (n: nat)
    ensures n <= |t|
  {
    if t != [] && t[0] !in {QUOTE, BACKSLASH, NL, CR} then 1 + PlainRun(t[1..]) else 0
  }

  /** `"[^"\\\n\r]*"` */
  function QuotedLen(t: Text): (n: nat)
    ensures n <= |t|
  {
    if t != [] && t[0] == QUOTE then
      var n := 1 + PlainRun(t[1..]);
      if n < |t| && t[n] == QUOTE then n + 1 else 0
    else 0
  }

  /** The second pattern; its alternatives start with different units. */
  function TokenLen(t: Text): (n: nat)
    ensures n <= |t|
  {
    if QuotedLen(t) > 0 then QuotedLen(t)
    else if TRUE_TEXT <= t then 4
    else if FALSE_TEXT <= t then 5
    else if NULL_TEXT <= t then 4
    else NumberLen(t)
  }

  /** Second pass: simple values become ']'. */
  function MarkTokens(t: Text): Text {
    if t == [] then []
    else
      var n := TokenLen(t);
      if n > 0 then [RBRACKET] + MarkTokens(t[n..]) else [t[0]] + MarkTokens(t[1..])
  }

  function SpaceRun(t: Text): (n: nat)
    ensures n <= |t|
  {
    if t != [] && IsSpace(t[0]) then 1 + SpaceRun(t[1..]) else 0
  }

  /** `(?:\s*\[)*` */
  function BracketRun(t: Text): (n: nat)
    ensures n <= |t|
  {
    var n := SpaceRun(t);
    if n < |t| && t[n] == LBRACKET then n + 1 + BracketRun(t[n + 1..]) else 0
  }

  /** Third pass away from the start of the text: `(?:\s*\[)+` after ':' or ',' is deleted. */
  function DropOpens(t: Text): Text {
    if t == [] then []
    else if (t[0] == COLON || t[0] == COMMA) && BracketRun(t[1..]) > 0 then
      DropOpens(t[1 + BracketRun(t[1..])..])
    else [t[0]] + DropOpens(t[1..])
  }

  /** `^[\],:{}\s]*$` */
  predicate IsFinal(c: Code) {
    c in {RBRACKET, COMMA, COLON, LBRACE, RBRACE} || IsSpace(c)
  }

  predicate AllFinal(t: Text) {
    forall c | c in t :: IsFinal(c)
  }

  /** The whole third pass; `^` matches before the first unit only. */
  function DropAllOpens(t: Text): Text {
    DropOpens(t[BracketRun(t)..])
  }

  /** Does `text` get as far as `eval`? */
  predicate Accepts(t: Text) {
    AllFinal(DropAllOpens(MarkTokens(MarkEscapes(t))))
  }
}
