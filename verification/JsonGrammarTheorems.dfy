/** The reader and the grammar agree: a text is read as a value exactly when it means that value. */
module JsonGrammarTheorems {
  import opened Wrappers
  import opened JsonText
  import opened JsonGate
  import opened JsonScanner
  import opened JsonGrammar
  import opened JsonReader
  import opened JsonParsing

  // ----- slices

  /** A part of a rest of `t`. */
  lemma Sub(t: Text, k: nat, a: nat, b: nat)
    requires k <= |t| && a <= b <= |t| - k
    ensures t[k..][a..b] == t[k + a..k + b]
    ensures t[k..][..b] == t[k..k + b] && t[k..][a..] == t[k + a..]
  {
  }

  /** A part of a beginning of `t`. */
  lemma Front(t: Text, n: nat, a: nat, b: nat)
    requires a <= b <= n <= |t|
    ensures t[..n][a..b] == t[a..b] && t[..n][..a] == t[..a] && t[..n][b..] == t[b..n]
  {
  }

  // ----- strings

  lemma HexSound(c: Code)
    requires IsHex(c)
    ensures HexMeans(c, HexValue(c))
  {
  }

  lemma HexComplete(c: Code, d: int)
    requires HexMeans(c, d)
    ensures IsHex(c) && HexValue(c) == d
  {
  }

  lemma NibblesOf(c: int, x: int, y: int, z: int, w: int)
    requires 0 <= x < 16 && 0 <= y < 16 && 0 <= z < 16 && 0 <= w < 16
    requires c == 4096 * x + 256 * y + 16 * z + w
    ensures c / 4096 == x && c / 256 % 16 == y && c / 16 % 16 == z && c % 16 == w
  {
    assert c / 16 == 256 * x + 16 * y + z;
    assert c / 256 == 16 * x + y;
  }

  lemma ShortSound(m: Code)
    requires IsShortEscape(m)
    ensures Unmeta(m).Some? && (m, Unmeta(m).value) in SHORT_ESCAPES
  {
    var s := SHORT_ESCAPES;
    assert s[0] in s && s[1] in s && s[2] in s && s[3] in s && s[4] in s && s[5] in s && s[6] in s && s[7] in s;
  }

  lemma ShortComplete(m: Code, c: Code)
    requires (m, c) in SHORT_ESCAPES
    ensures IsShortEscape(m) && Unmeta(m) == Some(c)
  {
  }

  lemma EscapeSound(t: Text)
    requires EscapeLen(t) > 0
    ensures UnitMeans(t[..EscapeLen(t)], EscapedUnit(t))
  {
    hide HexValue, IsHex, HexMeans, Unmeta, IsShortEscape;
    if EscapeLen(t) == 2 {
      ShortSound(t[1]);
    } else {
      HexSound(t[2]);
      HexSound(t[3]);
      HexSound(t[4]);
      HexSound(t[5]);
      NibblesOf(EscapedUnit(t), HexValue(t[2]), HexValue(t[3]), HexValue(t[4]), HexValue(t[5]));
    }
  }

  lemma EscapeComplete(t: Text, k: nat, c: Code)
    requires 1 < k <= |t| && UnitMeans(t[..k], c)
    ensures t[0] == BACKSLASH && EscapeLen(t) == k && EscapedUnit(t) == c
  {
    hide HexValue, IsHex, HexMeans, Unmeta, IsShortEscape;
    assert t[..k][0] == t[0] && t[..k][1] == t[1];
    if k == 2 {
      ShortComplete(t[1], c);
    } else {
      assert forall i | 0 <= i < 6 :: t[..k][i] == t[i];
      HexComplete(t[2], c / 4096);
      HexComplete(t[3], c / 256 % 16);
      HexComplete(t[4], c / 16 % 16);
      HexComplete(t[5], c % 16);
      UIsNotShort();
      Nibbles(c);
    }
  }

  lemma UIsNotShort()
    ensures !IsShortEscape(117)
  {
  }

  /** What is read up to the closing quotation mark is what the text says. */
  lemma {:induction false} BodySound(t: Text) returns (n: nat)
    requires ReadBody(t).Got?
    ensures 0 < n <= |t| && t[n - 1] == QUOTE && ReadBody(t).rest == t[n..]
    ensures BodyMeans(t[..n - 1], ReadBody(t).value)
    decreases |t|
  {
    hide EscapeLen, EscapedUnit, UnitMeans;
    if t[0] == QUOTE {
      n := 1;
    } else {
      var k := if t[0] == BACKSLASH then EscapeLen(t) else 1;
      var c := if t[0] == BACKSLASH then EscapedUnit(t) else t[0];
      assert UnitMeans(t[..k], c) by {
        if t[0] == BACKSLASH { EscapeSound(t); } else { PlainSound(t); }
      }
      var m := BodySound(t[k..]);
      n := k + m;
      Sub(t, k, m, |t| - k);
      assert t[k..][m - 1] == t[n - 1];
      BodyMore(t, k, m, c, ReadBody(t[k..]).value);
    }
  }

  lemma PlainSound(t: Text)
    requires t != [] && t[0] >= 0x20 && t[0] != QUOTE && t[0] != BACKSLASH
    ensures UnitMeans(t[..1], t[0])
  {
    assert t[..1] == [t[0]];
  }

  lemma BodyMore(t: Text, k: nat, m: nat, c: Code, s: Text)
    requires 0 < k && 0 < m && k + m <= |t| && UnitMeans(t[..k], c) && BodyMeans(t[k..][..m - 1], s)
    ensures BodyMeans(t[..k + m - 1], [c] + s)
  {
    hide UnitMeans;
    var u := t[..k + m - 1];
    Front(t, k + m - 1, k, k + m - 1);
    Sub(t, k, 0, m - 1);
    assert u[..k] == t[..k] && u[k..] == t[k..][..m - 1];
    assert ([c] + s)[0] == c && ([c] + s)[1..] == s;
  }

  lemma {:induction false} BodyComplete(t: Text, n: nat, s: Text)
    requires n < |t| && t[n] == QUOTE && BodyMeans(t[..n], s)
    ensures ReadBody(t) == Got(s, t[n + 1..])
    decreases |s|
  {
    hide EscapeLen, EscapedUnit, UnitMeans;
    if s == [] {
      assert n == 0;
    } else {
      var u := t[..n];
      var k :| 0 < k <= |u| && UnitMeans(u[..k], s[0]) && BodyMeans(u[k..], s[1..]);
      Front(t, n, 0, k);
      Sub(t, k, 0, n - k);
      Front(t, n, k, n);
      assert t[k..][..n - k] == u[k..];
      BodyComplete(t[k..], n - k, s[1..]);
      Sub(t, k, n - k + 1, |t| - k);
      assert s == [s[0]] + s[1..];
      if k > 1 {
        EscapeComplete(t, k, s[0]);
      } else {
        PlainComplete(t, s[0]);
      }
    }
  }

  lemma PlainComplete(t: Text, c: Code)
    requires t != [] && UnitMeans(t[..1], c)
    ensures t[0] == c && c >= 0x20 && c != QUOTE && c != BACKSLASH
  {
    assert t[..1][0] == t[0];
  }

  // ----- numbers

  lemma DigitSound(c: Code)
    requires IsDigit(c)
    ensures DigitMeans(c, c - 48)
  {
  }

  lemma DigitComplete(c: Code, d: int)
    requires DigitMeans(c, d)
    ensures IsDigit(c) && c - 48 == d
  {
  }

  lemma {:induction false} DigitsSound(t: Text)
    requires t != [] && forall c | c in t :: IsDigit(c)
    ensures NatMeans(t, DigitsValue(t))
  {
    hide IsDigit, DigitMeans;
    var m := |t| - 1;
    assert t[m] in t;
    DigitSound(t[m]);
    DigitRange(t[m]);
    if m == 0 {
      assert t[..0] == [];
    } else {
      assert forall c | c in t[..m] :: c in t;
      DigitsSound(t[..m]);
      DivideTen(DigitsValue(t[..m]), t[m] - 48);
    }
  }

  lemma DigitRange(c: Code)
    requires IsDigit(c)
    ensures 0 <= c - 48 < 10
  {
  }

  lemma DivideTen(a: int, d: int)
    requires 0 <= d < 10
    ensures (10 * a + d) / 10 == a && (10 * a + d) % 10 == d
  {
  }

  lemma {:induction false} DigitsComplete(t: Text, n: int)
    requires NatMeans(t, n)
    ensures n >= 0 && (forall c | c in t :: IsDigit(c)) && DigitsValue(t) == n
    decreases |t|
  {
    hide IsDigit, DigitMeans;
    var m := |t| - 1;
    if m == 0 {
      DigitComplete(t[0], n);
      DigitRange(t[0]);
      assert t == [t[0]] && t[..0] == [];
    } else {
      DigitsComplete(t[..m], n / 10);
      DigitComplete(t[m], n % 10);
      assert t == t[..m] + [t[m]];
    }
  }

  lemma NumberSound(t: Text) returns (n: nat)
    requires ReadNumber(t).Got?
    ensures 0 < n <= |t| && ReadNumber(t).rest == t[n..] && IntMeans(t[..n], ReadNumber(t).value)
  {
    hide DigitRun, NatMeans, EndsNumber, DigitsValue;
    var s := if t != [] && t[0] == MINUS then 1 else 0;
    var d := DigitRun(t[s..]);
    n := s + d;
    var digits := t[s..][..d];
    RunDigits(t[s..]);
    Sub(t, s, 0, d);
    DigitsSound(digits);
    assert digits[0] in digits && digits[0] == t[s];
    assert t[..n][0] == t[0];
    if s == 1 {
      assert t[..n][1..] == digits;
    } else {
      assert t[..n] == digits;
      assert IsDigit(t[0]) && !IsDigit(MINUS);
    }
  }

  lemma NumberComplete(t: Text, n: nat, v: int)
    requires n <= |t| && IntMeans(t[..n], v) && EndsNumber(t[n..])
    ensures ReadNumber(t) == Got(v, t[n..])
  {
    hide NatMeans, EndsNumber, DigitsValue;
    var w := t[..n];
    var s := if w != [] && w[0] == MINUS then 1 else 0;
    var digits := w[s..];
    DigitsComplete(digits, if s == 1 then -v else v);
    assert digits != [] by { assert NatMeans(digits, if s == 1 then -v else v); NatHasDigits(digits, if s == 1 then -v else v); }
    assert w[0] == t[0] && digits[0] == t[s] && digits[0] in digits;
    assert t[s..] == digits + t[n..];
    EndIsNoDigit(t[n..]);
    DigitRunIs(digits, t[n..]);
    assert t[s..][..|digits|] == digits;
    assert IsDigit(t[s]) && !IsDigit(MINUS);
  }

  lemma NatHasDigits(t: Text, n: int)
    requires NatMeans(t, n)
    ensures t != []
  {
  }

  lemma EndIsNoDigit(rest: Text)
    ensures EndsNumber(rest) ==> rest == [] || !IsDigit(rest[0])
  {
  }

  lemma {:induction false} DigitRunIs(w: Text, t: Text)
    requires forall c | c in w :: IsDigit(c)
    requires t == [] || !IsDigit(t[0])
    ensures DigitRun(w + t) == |w|
  {
    if w == [] {
      assert w + t == t;
    } else {
      assert w[0] in w;
      assert (w + t)[1..] == w[1..] + t;
      DigitRunIs(w[1..], t);
    }
  }

  // ----- white space and scalars

  lemma {:induction false} SpaceSound(t: Text)
    ensures AllSpace(t[..SpaceRun(t)])
    ensures SpaceRun(t) < |t| ==> !IsSpace(t[SpaceRun(t)])
  {
    if t != [] && IsSpace(t[0]) {
      SpaceSound(t[1..]);
      assert t[..SpaceRun(t)] == [t[0]] + t[1..][..SpaceRun(t[1..])];
    }
  }

  lemma {:induction false} SpaceIs(t: Text, a: nat)
    requires a <= |t| && AllSpace(t[..a]) && (a < |t| ==> !IsSpace(t[a]))
    ensures SpaceRun(t) == a && SkipSpace(t) == t[a..]
  {
    hide IsSpace;
    if a > 0 {
      assert t[..a][0] == t[0] && t[0] in t[..a];
      assert t[1..][..a - 1] == t[..a][1..];
      assert forall c | c in t[..a][1..] :: c in t[..a];
      SpaceIs(t[1..], a - 1);
    } else if t != [] {
      assert !IsSpace(t[0]);
    }
  }

  lemma Starts(w: Text, t: Text)
    ensures w <= t <==> |w| <= |t| && t[..|w|] == w
  {
  }

  lemma ScalarSound(t: Text) returns (n: nat)
    requires ReadScalar(t).Got?
    ensures 0 < n <= |t| && ReadScalar(t).rest == t[n..] && Means(t[..n], ReadScalar(t).value)
  {
    hide ReadBody, ReadNumber, IntMeans, BodyMeans;
    if t != [] && t[0] == QUOTE {
      var m := BodySound(t[1..]);
      n := m + 1;
      Sub(t, 1, 0, m - 1);
      Sub(t, 1, m, |t| - 1);
      assert t[1..][m - 1] == t[m];
      var w := t[..n];
      Front(t, n, 1, m);
      assert w[1..|w| - 1] == t[1..][..m - 1];
    } else if NULL_TEXT <= t {
      Starts(NULL_TEXT, t);
      n := 4;
    } else if TRUE_TEXT <= t {
      Starts(TRUE_TEXT, t);
      n := 4;
    } else if FALSE_TEXT <= t {
      Starts(FALSE_TEXT, t);
      n := 5;
    } else {
      n := NumberSound(t);
    }
  }

  lemma StringComplete(t: Text, n: nat, s: Text)
    requires n <= |t| && StringMeans(t[..n], s)
    ensures t != [] && t[0] == QUOTE && ReadBody(t[1..]) == Got(s, t[n..])
  {
    hide ReadBody, BodyMeans;
    var w := t[..n];
    Front(t, n, 1, n - 1);
    Sub(t, 1, 0, n - 2);
    assert w[0] == t[0] && w[n - 1] == t[n - 1] && t[1..][n - 2] == t[n - 1];
    BodyComplete(t[1..], n - 2, s);
    Sub(t, 1, n - 1, |t| - 1);
  }

  /** A number starts with a digit or a sign. */
  lemma IntStarts(w: Text, n: int)
    requires IntMeans(w, n)
    ensures w != [] && (IsDigit(w[0]) || w[0] == MINUS)
  {
    hide NatMeans;
    if w == [] || w[0] != MINUS {
      DigitsComplete(w, n);
      NatHasDigits(w, n);
      assert w[0] in w;
    }
  }

  lemma ScalarComplete(t: Text, n: nat, j: Json)
    requires n <= |t| && Means(t[..n], j) && EndsNumber(t[n..]) && !j.JArr? && !j.JObj?
    ensures ReadScalar(t) == Got(j, t[n..])
  {
    hide ReadBody, ReadNumber, IntMeans, StringMeans, EndsNumber, IsDigit;
    match j
    case JStr(s) => StringComplete(t, n, s);
    case JInt(v) =>
      NumberComplete(t, n, v);
      IntStarts(t[..n], v);
      assert t[..n][0] == t[0];
      DigitIsPlain(t[0]);
      NoLiteral(NULL_TEXT, t);
      NoLiteral(TRUE_TEXT, t);
      NoLiteral(FALSE_TEXT, t);
    case JNull =>
      Starts(NULL_TEXT, t);
      assert t[0] == t[..n][0];
    case JBool(b) =>
      var w := if b then TRUE_TEXT else FALSE_TEXT;
      Starts(w, t);
      assert t[0] == t[..n][0];
      NoLiteral(NULL_TEXT, t);
      if !b { NoLiteral(TRUE_TEXT, t); }
  }

  // ----- what is read is meant

  lemma PadText(t: Text, a: nat, m: nat, c: nat, j: Json)
    requires a <= m <= c <= |t| && AllSpace(t[..a]) && Means(t[a..m], j) && AllSpace(t[m..c])
    ensures TextMeans(t[..c], j)
  {
    hide Means;
    Front(t, c, a, m);
  }

  lemma PadKey(t: Text, a: nat, m: nat, c: nat, key: Text)
    requires a <= m <= c <= |t| && AllSpace(t[..a]) && StringMeans(t[a..m], key) && AllSpace(t[m..c])
    ensures KeyMeans(t[..c], key)
  {
    hide StringMeans;
    Front(t, c, a, m);
  }

  lemma After(t: Text, c: nat)
    requires c < |t|
    ensures t[c..] != [] && t[c..][0] == t[c] && t[c..][1..] == t[c + 1..]
  {
  }

  lemma SpacesAfter(t: Text, m: nat) returns (c: nat)
    requires m <= |t|
    ensures m <= c <= |t| && AllSpace(t[m..c]) && SkipSpace(t[m..]) == t[c..]
  {
    hide SpaceRun, IsSpace;
    SpaceSound(t[m..]);
    var sp := SpaceRun(t[m..]);
    c := m + sp;
    Sub(t, m, 0, sp);
    Sub(t, m, sp, |t| - m);
  }

  /** The text between two brackets. */
  lemma Inside(t: Text, a: nat, n: nat)
    requires a + 2 <= n <= |t|
    ensures var w := t[a..n];
            |w| == n - a && w[0] == t[a] && w[|w| - 1] == t[n - 1] && w[1..|w| - 1] == t[a + 1..n - 1]
  {
    var w := t[a..n];
    assert forall i | 0 <= i < n - a :: w[i] == t[a + i];
    assert w[1..|w| - 1] == t[a + 1..n - 1];
  }

  lemma Whole(t: Text)
    ensures t[0..] == t && forall a | 0 <= a <= |t| :: t[0..a] == t[..a]
  {
  }

  /** What a value read from `t`, whose white space ends at `a`, consists of. */
  lemma ValueUnfold(t: Text, a: nat)
    requires a <= |t| && SkipSpace(t) == t[a..] && ReadValue(t).Got?
    ensures a < |t|
    ensures t[a] == LBRACKET ==>
              var w := SkipSpace(t[a + 1..]);
              if w != [] && w[0] == RBRACKET then ReadValue(t) == Got(JArr([]), w[1..])
              else ReadItems(t[a + 1..]).Got? && ReadValue(t) == Got(JArr(ReadItems(t[a + 1..]).value), ReadItems(t[a + 1..]).rest)
    ensures t[a] == LBRACE ==>
              var w := SkipSpace(t[a + 1..]);
              if w != [] && w[0] == RBRACE then ReadValue(t) == Got(JObj([]), w[1..])
              else ReadProps(t[a + 1..]).Got? && ReadValue(t) == Got(JObj(ReadProps(t[a + 1..]).value), ReadProps(t[a + 1..]).rest)
    ensures t[a] != LBRACKET && t[a] != LBRACE ==> ReadValue(t) == ReadScalar(t[a..])
  {
    hide ReadItems, ReadProps, ReadScalar, SkipSpace;
    if a < |t| {
      After(t, a);
    }
  }

  lemma {:induction false} ValueSound(t: Text) returns (a: nat, n: nat)
    requires ReadValue(t).Got?
    ensures a < n <= |t| && AllSpace(t[..a]) && Means(t[a..n], ReadValue(t).value) && ReadValue(t).rest == t[n..]
    decreases |t|, 0
  {
    hide ReadValue, ReadScalar, ReadItems, ReadProps, SkipSpace, Means, ItemsMean, PropsMean, AllSpace, DistinctKeys;
    Whole(t);
    a := SpacesAfter(t, 0);
    ValueUnfold(t, a);
    if t[a] == LBRACKET {
      n := ArraySound(t, a);
    } else if t[a] == LBRACE {
      n := ObjectSound(t, a);
    } else {
      var m := ScalarSound(t[a..]);
      n := a + m;
      Sub(t, a, 0, m);
      Sub(t, a, m, |t| - a);
    }
  }

  lemma ArrayMeans(t: Text, a: nat, n: nat, items: seq<Json>)
    requires a + 2 <= n <= |t| && t[a] == LBRACKET && t[n - 1] == RBRACKET
    requires if items == [] then AllSpace(t[a + 1..n - 1]) else ItemsMean(t[a + 1..n - 1], items)
    ensures Means(t[a..n], JArr(items))
  {
    hide ItemsMean, AllSpace;
    Inside(t, a, n);
  }

  lemma ObjectMeans(t: Text, a: nat, n: nat, props: seq<Prop>)
    requires a + 2 <= n <= |t| && t[a] == LBRACE && t[n - 1] == RBRACE && DistinctKeys(props)
    requires if props == [] then AllSpace(t[a + 1..n - 1]) else PropsMean(t[a + 1..n - 1], props)
    ensures Means(t[a..n], JObj(props))
  {
    hide PropsMean, AllSpace, DistinctKeys;
    Inside(t, a, n);
  }

  lemma ArraySound(t: Text, a: nat) returns (n: nat)
    requires a < |t| && SkipSpace(t) == t[a..] && t[a] == LBRACKET && ReadValue(t).Got?
    ensures a < n <= |t| && Means(t[a..n], ReadValue(t).value) && ReadValue(t).rest == t[n..]
    decreases |t|, 0, 0
  {
    hide ReadValue, ReadItems, SkipSpace, ItemsMean, AllSpace, Means;
    ValueUnfold(t, a);
    var b := SpacesAfter(t, a + 1);
    if b < |t| && t[b] == RBRACKET {
      n := b + 1;
      After(t, b);
      ArrayMeans(t, a, n, []);
    } else {
      var items := ReadItems(t[a + 1..]).value;
      var m := ItemsSound(t[a + 1..]);
      n := a + 1 + m;
      Sub(t, a + 1, 0, m - 1);
      Sub(t, a + 1, m, |t| - a - 1);
      At(t, a + 1, m - 1);
      ArrayMeans(t, a, n, items);
    }
  }

  lemma NoKeys()
    ensures DistinctKeys([])
  {
  }

  lemma ObjectSound(t: Text, a: nat) returns (n: nat)
    requires a < |t| && SkipSpace(t) == t[a..] && t[a] == LBRACE && ReadValue(t).Got?
    ensures a < n <= |t| && Means(t[a..n], ReadValue(t).value) && ReadValue(t).rest == t[n..]
    decreases |t|, 0, 0
  {
    hide ReadValue, ReadProps, SkipSpace, PropsMean, AllSpace, Means, DistinctKeys;
    ValueUnfold(t, a);
    var b := SpacesAfter(t, a + 1);
    if b < |t| && t[b] == RBRACE {
      n := b + 1;
      After(t, b);
      NoKeys();
      ObjectMeans(t, a, n, []);
    } else {
      var props := ReadProps(t[a + 1..]).value;
      var m := PropsSound(t[a + 1..]);
      n := a + 1 + m;
      Sub(t, a + 1, 0, m - 1);
      Sub(t, a + 1, m, |t| - a - 1);
      At(t, a + 1, m - 1);
      ObjectMeans(t, a, n, props);
    }
  }

  lemma At(t: Text, k: nat, i: nat)
    requires k + i < |t|
    ensures t[k..][i] == t[k + i]
  {
  }

  lemma ItemsUnfold(t: Text)
    requires ReadItems(t).Got?
    ensures ReadValue(t).Got?
    ensures var v, u := ReadValue(t).value, SkipSpace(ReadValue(t).rest);
            && u != []
            && (u[0] == RBRACKET ==> ReadItems(t) == Got([v], u[1..]))
            && (u[0] != RBRACKET ==>
                  && u[0] == COMMA && ReadItems(u[1..]).Got?
                  && ReadItems(t) == Got([v] + ReadItems(u[1..]).value, ReadItems(u[1..]).rest))
  {
    hide ReadValue, SkipSpace;
  }

  lemma {:induction false} ItemsSound(t: Text) returns (n: nat)
    requires ReadItems(t).Got?
    ensures 0 < n <= |t| && t[n - 1] == RBRACKET && ReadItems(t).rest == t[n..]
    ensures ReadItems(t).value != [] && ItemsMean(t[..n - 1], ReadItems(t).value)
    decreases |t|, 1
  {
    hide ReadItems, ReadValue, SkipSpace, TextMeans, ItemsMean;
    ItemsUnfold(t);
    var c := ItemSound(t);
    var v := ReadValue(t).value;
    After(t, c);
    if t[c] == RBRACKET {
      n := c + 1;
      SingleItem(t[..c], v);
    } else {
      var k := ItemsSound(t[c + 1..]);
      n := c + 1 + k;
      Sub(t, c + 1, k, |t| - c - 1);
      At(t, c + 1, k - 1);
      ItemsMore(t, c, k - 1, v, ReadItems(t[c + 1..]).value);
    }
  }

  lemma SingleItem(t: Text, v: Json)
    requires TextMeans(t, v)
    ensures ItemsMean(t, [v])
  {
    hide TextMeans;
  }

  /** An element and the white space after it. */
  lemma ItemSound(t: Text) returns (c: nat)
    requires ReadValue(t).Got?
    ensures c <= |t| && SkipSpace(ReadValue(t).rest) == t[c..] && TextMeans(t[..c], ReadValue(t).value)
    decreases |t|, 1, 0
  {
    hide ReadValue, SkipSpace, Means, TextMeans, AllSpace;
    var a, m := ValueSound(t);
    c := SpacesAfter(t, m);
    PadText(t, a, m, c, ReadValue(t).value);
  }

  lemma ItemsMore(t: Text, c: nat, k: nat, v: Json, vs: seq<Json>)
    requires c + 1 + k <= |t| && t[c] == COMMA && vs != [] && TextMeans(t[..c], v) && ItemsMean(t[c + 1..][..k], vs)
    ensures ItemsMean(t[..c + 1 + k], [v] + vs)
  {
    hide TextMeans;
    var u := t[..c + 1 + k];
    Front(t, c + 1 + k, c, c + 1);
    Front(t, c + 1 + k, c + 1, c + 1 + k);
    Sub(t, c + 1, 0, k);
    assert u[c] == t[c] && u[..c] == t[..c] && u[c + 1..] == t[c + 1..][..k];
    assert ([v] + vs)[1..] == vs;
  }

  lemma KeySound(t: Text) returns (n: nat)
    requires ReadKey(t).Got?
    ensures 0 < n <= |t| && t[n - 1] == COLON && ReadKey(t).rest == t[n..] && KeyMeans(t[..n - 1], ReadKey(t).value)
  {
    hide ReadBody, SkipSpace, StringMeans, AllSpace;
    Whole(t);
    var a := SpacesAfter(t, 0);
    After(t, a);
    var b := QuotedSound(t, a);
    var c := SpacesAfter(t, b);
    PadKey(t, a, b, c, ReadKey(t).value);
    After(t, c);
    n := c + 1;
  }

  lemma QuotedSound(t: Text, a: nat) returns (b: nat)
    requires a < |t| && t[a] == QUOTE && ReadBody(t[a + 1..]).Got?
    ensures a < b <= |t| && StringMeans(t[a..b], ReadBody(t[a + 1..]).value) && ReadBody(t[a + 1..]).rest == t[b..]
  {
    hide ReadBody, BodyMeans;
    var m := BodySound(t[a + 1..]);
    b := a + 1 + m;
    Sub(t, a + 1, m, |t| - a - 1);
    Sub(t, a + 1, 0, m - 1);
    At(t, a + 1, m - 1);
    Inside(t, a, b);
  }

  lemma JoinProp(t: Text, k: nat, c: nat, p: Prop)
    requires 0 < k <= c <= |t| && t[k - 1] == COLON && KeyMeans(t[..k - 1], p.key) && TextMeans(t[k..][..c - k], p.val)
    ensures PropMeans(t[..c], p)
  {
    hide KeyMeans, TextMeans;
    var u := t[..c];
    Front(t, c, k, c);
    Front(t, c, k - 1, k);
    Sub(t, k, 0, c - k);
    assert u[k - 1] == COLON && u[..k - 1] == t[..k - 1] && u[k..] == t[k..][..c - k];
  }

  lemma PropsUnfold(t: Text)
    requires ReadProps(t).Got?
    ensures ReadKey(t).Got? && ReadValue(ReadKey(t).rest).Got?
    ensures var r := ReadValue(ReadKey(t).rest);
            var p, u := Prop(ReadKey(t).value, r.value), SkipSpace(r.rest);
            && u != []
            && (u[0] == RBRACE ==> ReadProps(t) == Got([p], u[1..]))
            && (u[0] != RBRACE ==>
                  && u[0] == COMMA && ReadProps(u[1..]).Got? && !HasKey(ReadProps(u[1..]).value, p.key)
                  && ReadProps(t) == Got([p] + ReadProps(u[1..]).value, ReadProps(u[1..]).rest))
  {
    hide ReadKey, ReadValue, SkipSpace, HasKey;
  }

  lemma {:induction false} PropsSound(t: Text) returns (n: nat)
    requires ReadProps(t).Got?
    ensures 0 < n <= |t| && t[n - 1] == RBRACE && ReadProps(t).rest == t[n..]
    ensures ReadProps(t).value != [] && DistinctKeys(ReadProps(t).value) && PropsMean(t[..n - 1], ReadProps(t).value)
    decreases |t|, 1
  {
    hide ReadProps, ReadKey, ReadValue, SkipSpace, PropMeans, HasKey, DistinctKeys, PropsMean;
    PropsUnfold(t);
    var c := PropSound(t);
    var p := Prop(ReadKey(t).value, ReadValue(ReadKey(t).rest).value);
    After(t, c);
    if t[c] == RBRACE {
      n := c + 1;
      SingleProp(t[..c], p);
    } else {
      var l := PropsSound(t[c + 1..]);
      n := c + 1 + l;
      Sub(t, c + 1, l, |t| - c - 1);
      At(t, c + 1, l - 1);
      PropsMore(t, c, l - 1, p, ReadProps(t[c + 1..]).value);
      DistinctMore(p, ReadProps(t[c + 1..]).value);
    }
  }

  lemma SingleProp(t: Text, p: Prop)
    requires PropMeans(t, p)
    ensures DistinctKeys([p]) && PropsMean(t, [p])
  {
    hide PropMeans;
  }

  /** A member and the white space after it. */
  lemma PropSound(t: Text) returns (c: nat)
    requires ReadKey(t).Got? && ReadValue(ReadKey(t).rest).Got?
    ensures var r := ReadValue(ReadKey(t).rest);
            c <= |t| && SkipSpace(r.rest) == t[c..] && PropMeans(t[..c], Prop(ReadKey(t).value, r.value))
    decreases |t|, 1, 0
  {
    hide ReadKey, ReadValue, SkipSpace, Means, TextMeans, KeyMeans, PropMeans, AllSpace;
    var k := KeySound(t);
    var a, m := ValueSound(t[k..]);
    var d := SpacesAfter(t[k..], m);
    var p := Prop(ReadKey(t).value, ReadValue(t[k..]).value);
    PadText(t[k..], a, m, d, p.val);
    c := k + d;
    Sub(t, k, d, |t| - k);
    JoinProp(t, k, c, p);
  }

  lemma PropsMore(t: Text, c: nat, k: nat, p: Prop, ps: seq<Prop>)
    requires c + 1 + k <= |t| && t[c] == COMMA && ps != [] && PropMeans(t[..c], p) && PropsMean(t[c + 1..][..k], ps)
    ensures PropsMean(t[..c + 1 + k], [p] + ps)
  {
    hide PropMeans;
    var u := t[..c + 1 + k];
    Front(t, c + 1 + k, c, c + 1);
    Front(t, c + 1 + k, c + 1, c + 1 + k);
    Sub(t, c + 1, 0, k);
    assert u[c] == t[c] && u[..c] == t[..c] && u[c + 1..] == t[c + 1..][..k];
    assert ([p] + ps)[1..] == ps;
  }

  lemma DistinctMore(p: Prop, ps: seq<Prop>)
    requires DistinctKeys(ps)
    ensures DistinctKeys([p] + ps) <==> !HasKey(ps, p.key)
  {
    var all := [p] + ps;
    if !HasKey(ps, p.key) {
      forall i, j | 0 <= i < j < |all|
        ensures all[i].key != all[j].key
      {
        assert all[j] == ps[j - 1];
        assert i > 0 ==> all[i] == ps[i - 1];
      }
    } else {
      var i :| 0 <= i < |ps| && ps[i].key == p.key;
      assert all[i + 1] == ps[i] && all[0] == p;
    }
  }

  // ----- what is meant is read

  /** A value starts with a unit that is neither white space nor a closing bracket. */
  lemma MeansStart(w: Text, j: Json)
    requires Means(w, j)
    ensures w != [] && !IsSpace(w[0]) && w[0] != RBRACKET && w[0] != RBRACE
    ensures (w[0] == LBRACKET <==> j.JArr?) && (w[0] == LBRACE <==> j.JObj?)
  {
    hide IntMeans, BodyMeans, ItemsMean, PropsMean, DistinctKeys, AllSpace;
    if j.JInt? {
      IntStarts(w, j.n);
    }
  }

  lemma TextStart(t: Text, n: nat, j: Json) returns (a: nat, b: nat)
    requires n <= |t| && TextMeans(t[..n], j)
    ensures a < b <= n && AllSpace(t[..a]) && AllSpace(t[b..n]) && Means(t[a..b], j)
    ensures SkipSpace(t) == t[a..] && t[a] != RBRACKET && t[a] != RBRACE
  {
    hide Means, IsSpace;
    var u := t[..n];
    a, b :| 0 <= a <= b <= |u| && AllSpace(u[..a]) && AllSpace(u[b..]) && Means(u[a..b], j);
    Front(t, n, a, b);
    MeansStart(t[a..b], j);
    assert t[a..b][0] == t[a];
    SpaceIs(t, a);
  }

  lemma SpacesUpTo(t: Text, b: nat, n: nat)
    requires b <= n < |t| && AllSpace(t[b..n]) && !IsSpace(t[n])
    ensures SkipSpace(t[b..]) == t[n..]
  {
    hide IsSpace;
    Sub(t, b, 0, n - b);
    At(t, b, n - b);
    SpaceIs(t[b..], n - b);
    Sub(t, b, n - b, |t| - b);
  }

  lemma Punctuation()
    ensures !IsSpace(RBRACKET) && !IsSpace(RBRACE) && !IsSpace(COMMA) && !IsSpace(COLON)
  {
  }

  /** White space and punctuation end a number. */
  lemma NumberEnds(t: Text, b: nat, n: nat)
    requires b <= n < |t| && AllSpace(t[b..n]) && t[n] in {RBRACKET, RBRACE, COMMA}
    ensures EndsNumber(t[b..])
  {
    assert t[b..][0] == t[b];
    if b < n {
      assert t[b..n][0] == t[b] && t[b] in t[b..n];
    }
  }

  lemma {:induction false} ValueComplete(t: Text, a: nat, n: nat, j: Json)
    requires a <= n <= |t| && AllSpace(t[..a]) && Means(t[a..n], j) && EndsNumber(t[n..])
    ensures ReadValue(t) == Got(j, t[n..])
    decreases j, 0
  {
    hide ReadValue, SkipSpace, Means, AllSpace, EndsNumber, IsSpace;
    MeansStart(t[a..n], j);
    assert t[a..n][0] == t[a];
    SpaceIs(t, a);
    match j
    case JArr(items) => ArrayComplete(t, a, n, items);
    case JObj(props) => ObjectComplete(t, a, n, props);
    case _ => ScalarValue(t, a, n, j);
  }

  lemma ScalarValue(t: Text, a: nat, n: nat, j: Json)
    requires a < n <= |t| && SkipSpace(t) == t[a..] && Means(t[a..n], j) && EndsNumber(t[n..])
    requires !j.JArr? && !j.JObj? && t[a] != LBRACKET && t[a] != LBRACE
    ensures ReadValue(t) == Got(j, t[n..])
  {
    hide ReadValue, ReadScalar, SkipSpace, Means, EndsNumber;
    Sub(t, a, 0, n - a);
    Sub(t, a, n - a, |t| - a);
    ScalarComplete(t[a..], n - a, j);
    ReadsScalar(t, a);
  }

  lemma ReadsScalar(t: Text, a: nat)
    requires a < |t| && SkipSpace(t) == t[a..] && t[a] != LBRACKET && t[a] != LBRACE
    ensures ReadValue(t) == ReadScalar(t[a..])
  {
    hide ReadItems, ReadProps, ReadScalar, SkipSpace;
  }

  lemma {:induction false} ArrayComplete(t: Text, a: nat, n: nat, items: seq<Json>)
    requires a <= n <= |t| && SkipSpace(t) == t[a..] && Means(t[a..n], JArr(items))
    ensures ReadValue(t) == Got(JArr(items), t[n..])
    decreases items, 3
  {
    hide ReadScalar, ReadItems, ReadProps, SkipSpace, ItemsMean, AllSpace, IsSpace;
    Inside(t, a, n);
    After(t, a);
    var u := t[a + 1..];
    Sub(t, a + 1, 0, n - a - 2);
    Sub(t, a + 1, n - a - 2, |u|);
    Sub(t, a + 1, n - a - 1, |u|);
    At(t, a + 1, n - a - 2);
    Punctuation();
    After(t, n - 1);
    if items == [] {
      SpacesUpTo(t, a + 1, n - 1);
    } else {
      ItemsStart(u, n - a - 2, items);
      ItemsComplete(u, n - a - 2, items);
    }
  }

  /** Where the first of several elements ends. */
  lemma FirstItem(t: Text, n: nat, items: seq<Json>) returns (c: nat)
    requires |items| > 1 && n < |t| && ItemsMean(t[..n], items)
    ensures c < n && t[c] == COMMA && TextMeans(t[..c], items[0]) && ItemsMean(t[c + 1..][..n - c - 1], items[1..])
    ensures t[c + 1..][n - c - 1] == t[n] && t[c + 1..][n - c..] == t[n + 1..]
  {
    hide TextMeans;
    var u := t[..n];
    c :| 0 <= c < |u| && u[c] == COMMA && TextMeans(u[..c], items[0]) && ItemsMean(u[c + 1..], items[1..]);
    Rest(t, n, c);
  }

  lemma Rest(t: Text, n: nat, c: nat)
    requires c < n < |t|
    ensures t[..n][..c] == t[..c] && t[..n][c] == t[c] && t[..n][c + 1..] == t[c + 1..][..n - c - 1]
    ensures t[c + 1..][n - c - 1] == t[n] && t[c + 1..][n - c..] == t[n + 1..]
  {
    Front(t, n, 0, c);
    Front(t, n, c + 1, n);
    Sub(t, c + 1, 0, n - c - 1);
    Sub(t, c + 1, n - c, |t| - c - 1);
  }

  lemma ItemsStart(t: Text, n: nat, items: seq<Json>)
    requires items != [] && n < |t| && ItemsMean(t[..n], items)
    ensures SkipSpace(t) != [] && SkipSpace(t)[0] != RBRACKET
  {
    hide TextMeans, SkipSpace;
    var c := n;
    if |items| > 1 {
      c := FirstItem(t, n, items);
    }
    var a, b := TextStart(t, c, items[0]);
  }

  lemma {:induction false} ItemsComplete(t: Text, n: nat, items: seq<Json>)
    requires items != [] && n < |t| && t[n] == RBRACKET && ItemsMean(t[..n], items)
    ensures ReadItems(t) == Got(items, t[n + 1..])
    decreases items, 1
  {
    hide ReadValue, SkipSpace, TextMeans;
    if |items| == 1 {
      ItemComplete(t, n, items[0]);
      After(t, n);
      assert items == [items[0]];
    } else {
      var c := FirstItem(t, n, items);
      hide ItemsMean;
      ItemComplete(t, c, items[0]);
      After(t, c);
      ItemsComplete(t[c + 1..], n - c - 1, items[1..]);
      assert items == [items[0]] + items[1..];
    }
  }

  /** An element, the white space after it, and what comes next. */
  lemma {:induction false} ItemComplete(t: Text, c: nat, v: Json)
    requires c < |t| && t[c] in {COMMA, RBRACKET, RBRACE} && TextMeans(t[..c], v)
    ensures ReadValue(t).Got? && ReadValue(t).value == v && SkipSpace(ReadValue(t).rest) == t[c..]
    decreases v, 1
  {
    hide ReadValue, SkipSpace, TextMeans, Means, AllSpace, IsSpace;
    Punctuation();
    var a, b := TextStart(t, c, v);
    NumberEnds(t, b, c);
    ValueComplete(t, a, b, v);
    SpacesUpTo(t, b, c);
  }

  lemma {:induction false} ObjectComplete(t: Text, a: nat, n: nat, props: seq<Prop>)
    requires a <= n <= |t| && SkipSpace(t) == t[a..] && Means(t[a..n], JObj(props))
    ensures ReadValue(t) == Got(JObj(props), t[n..])
    decreases props, 3
  {
    hide ReadScalar, ReadItems, ReadProps, SkipSpace, PropsMean, AllSpace, IsSpace, DistinctKeys;
    Inside(t, a, n);
    After(t, a);
    var u := t[a + 1..];
    Sub(t, a + 1, 0, n - a - 2);
    Sub(t, a + 1, n - a - 2, |u|);
    Sub(t, a + 1, n - a - 1, |u|);
    At(t, a + 1, n - a - 2);
    Punctuation();
    After(t, n - 1);
    if props == [] {
      SpacesUpTo(t, a + 1, n - 1);
    } else {
      PropsStart(u, n - a - 2, props);
      PropsComplete(u, n - a - 2, props);
    }
  }

  /** A member name, its colon and what comes next. */
  lemma KeyComplete(t: Text, c: nat, key: Text)
    requires c < |t| && t[c] == COLON && KeyMeans(t[..c], key)
    ensures ReadKey(t) == Got(key, t[c + 1..])
    ensures SkipSpace(t) != [] && SkipSpace(t)[0] == QUOTE
  {
    hide ReadBody, SkipSpace, StringMeans, IsSpace;
    Punctuation();
    var u := t[..c];
    var a, b :| 0 <= a <= b <= |u| && AllSpace(u[..a]) && AllSpace(u[b..]) && StringMeans(u[a..b], key);
    Front(t, c, a, b);
    hide KeyMeans, AllSpace;
    QuotedComplete(t, a, b, key);
    SpacesUpTo(t, b, c);
    After(t, a);
    After(t, c);
  }

  lemma QuotedComplete(t: Text, a: nat, b: nat, key: Text)
    requires a <= b <= |t| && AllSpace(t[..a]) && StringMeans(t[a..b], key)
    ensures a < b && t[a] == QUOTE && SkipSpace(t) == t[a..] && ReadBody(t[a + 1..]) == Got(key, t[b..])
  {
    hide ReadBody, SkipSpace, StringMeans, AllSpace, IsSpace;
    StringHasQuotes(t[a..b], key);
    QuoteIsNoSpace();
    At(t, a, 0);
    Sub(t, a, 0, b - a);
    Sub(t, a, b - a, |t| - a);
    StringComplete(t[a..], b - a, key);
    Sub(t, a, 1, |t| - a);
    SpaceIs(t, a);
  }

  lemma StringHasQuotes(w: Text, s: Text)
    requires StringMeans(w, s)
    ensures |w| >= 2 && w[0] == QUOTE
  {
  }

  lemma QuoteIsNoSpace()
    ensures !IsSpace(QUOTE)
  {
  }

  /** Where the first of several members ends. */
  lemma FirstProp(t: Text, n: nat, props: seq<Prop>) returns (c: nat)
    requires |props| > 1 && n < |t| && PropsMean(t[..n], props)
    ensures c < n && t[c] == COMMA && PropMeans(t[..c], props[0]) && PropsMean(t[c + 1..][..n - c - 1], props[1..])
    ensures t[c + 1..][n - c - 1] == t[n] && t[c + 1..][n - c..] == t[n + 1..]
  {
    hide PropMeans;
    var u := t[..n];
    c :| 0 <= c < |u| && u[c] == COMMA && PropMeans(u[..c], props[0]) && PropsMean(u[c + 1..], props[1..]);
    Rest(t, n, c);
  }

  lemma PropsStart(t: Text, n: nat, props: seq<Prop>)
    requires props != [] && n < |t| && PropsMean(t[..n], props)
    ensures SkipSpace(t) != [] && SkipSpace(t)[0] == QUOTE
  {
    hide PropMeans, SkipSpace;
    var c := n;
    if |props| > 1 {
      c := FirstProp(t, n, props);
    }
    PropStart(t, c, props[0]);
  }

  lemma PropStart(t: Text, n: nat, p: Prop)
    requires n <= |t| && PropMeans(t[..n], p)
    ensures SkipSpace(t) != [] && SkipSpace(t)[0] == QUOTE
  {
    hide KeyMeans, TextMeans, SkipSpace;
    var u := t[..n];
    var c :| 0 <= c < |u| && u[c] == COLON && KeyMeans(u[..c], p.key) && TextMeans(u[c + 1..], p.val);
    Front(t, n, 0, c);
    assert u[c] == t[c];
    KeyComplete(t, c, p.key);
  }

  /** Where the name of a member ends. */
  lemma NameEnd(t: Text, n: nat, p: Prop) returns (c: nat)
    requires n < |t| && PropMeans(t[..n], p)
    ensures c < n && t[c] == COLON && KeyMeans(t[..c], p.key) && TextMeans(t[c + 1..][..n - c - 1], p.val)
    ensures t[c + 1..][n - c - 1] == t[n] && t[c + 1..][n - c - 1..] == t[n..]
  {
    hide KeyMeans, TextMeans;
    var u := t[..n];
    c :| 0 <= c < |u| && u[c] == COLON && KeyMeans(u[..c], p.key) && TextMeans(u[c + 1..], p.val);
    Rest(t, n, c);
    Sub(t, c + 1, n - c - 1, |t| - c - 1);
  }

  /** A member, the white space after it, and what comes next. */
  lemma {:induction false} PropComplete(t: Text, n: nat, p: Prop)
    requires n < |t| && t[n] in {COMMA, RBRACE} && PropMeans(t[..n], p)
    ensures ReadKey(t).Got? && ReadKey(t).value == p.key
    ensures var r := ReadValue(ReadKey(t).rest); r.Got? && r.value == p.val && SkipSpace(r.rest) == t[n..]
    decreases p, 0
  {
    hide ReadKey, ReadValue, SkipSpace, KeyMeans, TextMeans, PropMeans;
    var c := NameEnd(t, n, p);
    KeyComplete(t, c, p.key);
    ItemComplete(t[c + 1..], n - c - 1, p.val);
  }

  lemma {:induction false} PropsComplete(t: Text, n: nat, props: seq<Prop>)
    requires props != [] && n < |t| && t[n] == RBRACE && PropsMean(t[..n], props) && DistinctKeys(props)
    ensures ReadProps(t) == Got(props, t[n + 1..])
    decreases props, 1
  {
    hide ReadKey, ReadValue, SkipSpace, PropMeans, DistinctKeys, HasKey;
    if |props| == 1 {
      PropComplete(t, n, props[0]);
      After(t, n);
      assert props == [props[0]];
    } else {
      var c := FirstProp(t, n, props);
      hide PropsMean;
      PropComplete(t, c, props[0]);
      After(t, c);
      TailDistinct(props);
      PropsComplete(t[c + 1..], n - c - 1, props[1..]);
      assert props == [props[0]] + props[1..];
    }
  }

  lemma TailDistinct(props: seq<Prop>)
    requires |props| > 1 && DistinctKeys(props)
    ensures DistinctKeys(props[1..]) && !HasKey(props[1..], props[0].key)
  {
    assert forall i | 0 <= i < |props| - 1 :: props[1..][i] == props[i + 1];
  }

  // ----- the theorem

  /** A text is read as a value exactly when it means that value. */
  lemma ReaderIsGrammar(t: Text, j: Json)
    ensures ReadText(t) == Some(j) <==> TextMeans(t, j)
  {
    hide ReadValue, SkipSpace, Means, AllSpace;
    if ReadText(t) == Some(j) {
      var c := ItemSound(t);
      assert |t[c..]| == |t| - c;
      assert t[..c] == t;
    }
    if TextMeans(t, j) {
      Whole(t);
      assert t[..|t|] == t;
      var a, b := TextStart(t, |t|, j);
      assert t[b..|t|] == t[b..];
      SpaceEnds(t[b..]);
      ValueComplete(t, a, b, j);
    }
  }

  lemma SpaceEnds(w: Text)
    requires AllSpace(w)
    ensures EndsNumber(w) && SkipSpace(w) == []
  {
    assert w[..|w|] == w;
    SpaceIs(w, |w|);
    if w != [] {
      assert w[0] in w;
    }
  }

  /** `JSON2.parse` gives every JSON text its value, if the text keeps units of the class `cx` in strings,
      and refuses it otherwise; and a text without such units is parsed to what it means and nothing else. */
  lemma ParseMeans(t: Text, j: Json)
    ensures TextMeans(t, j) ==> Parse(t) == if CxInStrings(false, t) then Parsed(j) else Rejected
    ensures NoCx(t) ==> (Parse(t) == Parsed(j) <==> TextMeans(t, j))
  {
    hide Parse, TextMeans, ReadText, CxInStrings, NoCx;
    ReaderIsGrammar(t, j);
    ParseReads(t);
    if NoCx(t) {
      NoCxAnywhere(false, t);
    }
  }
}
