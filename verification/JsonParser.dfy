/** `json.loads` on text, and the proof that it undoes the printer. */
module JsonParser {
  import opened Common
  import opened Numerals
  import opened Json

  /** A parsed piece and the text after it. */
  datatype Parsed<T> = Fail | Got(value: T, rest: string)

  predicate IsSpace(c: char) {
    c == ' ' || c == '\t' || c == '\n' || c == '\r'
  }

  function SkipSpace(s: string): (r: string)
    ensures |r| <= |s| && (r != [] ==> !IsSpace(r[0]))
  {
    if s != [] && IsSpace(s[0]) then SkipSpace(s[1..]) else s
  }

  predicate Heads(s: string, c: char) {
    s != [] && s[0] == c
  }

  // Strings.

  function HexValue(c: char): Option<nat> {
    if IsDigit(c) then Some(DigitValue(c))
    else if 'a' <= c <= 'f' then Some(c as int - 'a' as int + 10)
    else if 'A' <= c <= 'F' then Some(c as int - 'A' as int + 10)
    else None
  }

  /** Four hexadecimal digits at the head of `s`. */
  function Hex4(s: string): (r: Option<nat>)
    ensures r.Some? ==> |s| >= 4 && r.value < 0x1_0000
  {
    if |s| < 4 then None
    else
      match (HexValue(s[0]), HexValue(s[1]), HexValue(s[2]), HexValue(s[3]))
      case (Some(a), Some(b), Some(c), Some(d)) =>
        if a < 16 && b < 16 && c < 16 && d < 16 then Some(((a * 16 + b) * 16 + c) * 16 + d) else None
      case _ => None
  }

  predicate IsHigh(u: nat) { 0xD800 <= u < 0xDC00 }

  predicate IsLow(u: nat) { 0xDC00 <= u < 0xE000 }

  /** The two-character escapes, by their second character. */
  function ShortEscape(e: char): Option<char> {
    match e
    case '\"' => Some('\"')
    case '\\' => Some('\\')
    case '/' => Some('/')
    case 'b' => Some(8 as char)
    case 'f' => Some(12 as char)
    case 'n' => Some('\n')
    case 'r' => Some('\r')
    case 't' => Some('\t')
    case _ => None
  }

  /** The character of an escape, `s` being the text after the backslash. A lone surrogate is no character. */
  function ParseEscape(s: string): (r: Parsed<char>)
    ensures r.Got? ==> |r.rest| < |s|
  {
    if s == [] then Fail
    else
      match ShortEscape(s[0])
      case Some(c) => Got(c, s[1..])
      case None => if s[0] == 'u' then ParseUnicode(s[1..]) else Fail
  }

  function ParseUnicode(s: string): (r: Parsed<char>)
    ensures r.Got? ==> |r.rest| < |s|
  {
    match Hex4(s)
    case None => Fail
    case Some(u) =>
      if !IsHigh(u) && !IsLow(u) then Got(u as char, s[4..])
      else if IsHigh(u) && |s| >= 10 && s[4] == '\\' && s[5] == 'u' then
        (match Hex4(s[6..])
         case Some(l) =>
           if IsLow(l) then Got((0x1_0000 + (u - 0xD800) * 0x400 + (l - 0xDC00)) as char, s[10..]) else Fail
         case None => Fail)
      else Fail
  }

  /** The rest of a literal, after its opening quote. */
  function ParseString(s: string): (r: Parsed<string>)
    ensures r.Got? ==> |r.rest| < |s|
    decreases |s|
  {
    if s == [] then Fail
    else if s[0] == '\"' then Got([], s[1..])
    else if s[0] == '\\' then
      match ParseEscape(s[1..])
      case Fail => Fail
      case Got(c, rest) => Prepend(c, ParseString(rest))
    else if s[0] < ' ' then Fail
    else Prepend(s[0], ParseString(s[1..]))
  }

  function Prepend(c: char, r: Parsed<string>): Parsed<string> {
    match r
    case Fail => Fail
    case Got(t, rest) => Got([c] + t, rest)
  }

  // Numbers.

  function ParseNumber(s: string): (r: Parsed<Json>)
    ensures r.Got? ==> |r.rest| < |s|
  {
    var t := NumberToken(s);
    if t.whole == 0 then Fail
    else Got(NumberValue(s, t), s[t.Length()..])
  }

  function NumberValue(s: string, t: Token): Json
    requires t.Length() <= |s|
  {
    if t.tail > 0 then Float(s[..t.Length()])
    else
      var n: int := ReadDec(s[t.sign..t.sign + t.whole]);
      Int(if t.sign == 1 then -n else n)
  }

  // Values.

  function ParseWord(s: string, word: string, v: Json): (r: Parsed<Json>)
    ensures r.Got? && word != [] ==> |r.rest| < |s|
  {
    if |word| <= |s| && s[..|word|] == word then Got(v, s[|word|..]) else Fail
  }

  function ParseValue(s: string): (r: Parsed<Json>)
    ensures r.Got? ==> |r.rest| < |s|
    decreases |s|, 1
  {
    var t := SkipSpace(s);
    if t == [] then Fail
    else if t[0] == '\"' then ParseText(t[1..])
    else if t[0] == '[' then ParseArray(t[1..])
    else if t[0] == '{' then ParseObject(t[1..])
    else if t[0] == 'n' then ParseWord(t, "null", Null)
    else if t[0] == 't' then ParseWord(t, "true", Bool(true))
    else if t[0] == 'f' then ParseWord(t, "false", Bool(false))
    else ParseNumber(t)
  }

  function ParseText(s: string): (r: Parsed<Json>)
    ensures r.Got? ==> |r.rest| < |s|
  {
    match ParseString(s)
    case Fail => Fail
    case Got(text, rest) => Got(Str(text), rest)
  }

  function ParseArray(s: string): (r: Parsed<Json>)
    ensures r.Got? ==> |r.rest| < |s|
    decreases |s|, 3
  {
    var t := SkipSpace(s);
    if Heads(t, ']') then Got(Arr([]), t[1..]) else ParseItems(s, [])
  }

  function ParseObject(s: string): (r: Parsed<Json>)
    ensures r.Got? ==> |r.rest| < |s|
    decreases |s|, 3
  {
    var t := SkipSpace(s);
    if Heads(t, '}') then Got(Obj([]), t[1..]) else ParseMembers(s, [])
  }

  /** The items after those in `done`, to the closing bracket. */
  function ParseItems(s: string, done: seq<Json>): (r: Parsed<Json>)
    ensures r.Got? ==> |r.rest| < |s|
    decreases |s|, 2
  {
    match ParseValue(s)
    case Fail => Fail
    case Got(v, rest) =>
      var t := SkipSpace(rest);
      if Heads(t, ',') then ParseItems(t[1..], done + [v])
      else if Heads(t, ']') then Got(Arr(done + [v]), t[1..])
      else Fail
  }

  /** A key that comes again keeps its place and takes the later value. */
  function Put(ms: seq<Member>, m: Member): seq<Member> {
    if ms == [] then [m]
    else if ms[0].key == m.key then [m] + ms[1..]
    else [ms[0]] + Put(ms[1..], m)
  }

  function ParseKey(s: string): (r: Parsed<string>)
    ensures r.Got? ==> |r.rest| < |s|
  {
    var t := SkipSpace(s);
    if !Heads(t, '\"') then Fail
    else
      match ParseString(t[1..])
      case Fail => Fail
      case Got(key, rest) =>
        var u := SkipSpace(rest);
        if Heads(u, ':') then Got(key, u[1..]) else Fail
  }

  function ParseMembers(s: string, done: seq<Member>): (r: Parsed<Json>)
    ensures r.Got? ==> |r.rest| < |s|
    decreases |s|, 2
  {
    match ParseKey(s)
    case Fail => Fail
    case Got(key, afterKey) =>
      match ParseValue(afterKey)
      case Fail => Fail
      case Got(v, rest) =>
        var t := SkipSpace(rest);
        if Heads(t, ',') then ParseMembers(t[1..], Put(done, Member(key, v)))
        else if Heads(t, '}') then Got(Obj(Put(done, Member(key, v))), t[1..])
        else Fail
  }

  /** `json.loads`: one value and nothing but space after it. */
  function Loads(s: string): Option<Json> {
    match ParseValue(s)
    case Fail => None
    case Got(v, rest) => if SkipSpace(rest) == [] then Some(v) else None
  }

  // The parser undoes the printer.

  /** Text that cannot carry on a number token. */
  predicate Stops(s: string) {
    s == [] || (!IsDigit(s[0]) && s[0] != '.' && s[0] != 'e' && s[0] != 'E' && s[0] != '+' && s[0] != '-')
  }

  lemma {:induction false} DigitsStop(s: string, rest: string)
    requires rest != [] ==> !IsDigit(rest[0])
    ensures Digits(s + rest) == Digits(s)
  {
    if s == [] {
      assert s + rest == rest;
    } else if IsDigit(s[0]) {
      assert (s + rest)[1..] == s[1..] + rest;
      DigitsStop(s[1..], rest);
    }
  }

  lemma DropConcat(s: string, rest: string, i: nat)
    requires i <= |s|
    ensures (s + rest)[i..] == s[i..] + rest
  {
  }

  lemma FractionStop(s: string, rest: string)
    requires Stops(rest)
    ensures FractionLength(s + rest) == FractionLength(s)
  {
    if s != [] {
      DropConcat(s, rest, 1);
      DigitsStop(s[1..], rest);
    } else {
      assert s + rest == rest;
    }
  }

  lemma ExponentStop(s: string, rest: string)
    requires Stops(rest)
    ensures ExponentLength(s + rest) == ExponentLength(s)
  {
    if s != [] {
      DropConcat(s, rest, 1);
      DigitsStop(s[1..], rest);
      if |s| > 1 {
        DropConcat(s, rest, 2);
        DigitsStop(s[2..], rest);
      }
    } else {
      assert s + rest == rest;
    }
  }

  lemma TailStop(s: string, rest: string)
    requires Stops(rest)
    ensures TailLength(s + rest) == TailLength(s)
  {
    FractionStop(s, rest);
    DropConcat(s, rest, FractionLength(s));
    ExponentStop(s[FractionLength(s)..], rest);
  }

  lemma SignStop(s: string, rest: string)
    requires Stops(rest)
    ensures SignLength(s + rest) == SignLength(s)
  {
    if s == [] {
      assert s + rest == rest;
    } else {
      assert (s + rest)[0] == s[0];
    }
  }

  lemma TokenStop(s: string, rest: string)
    requires Stops(rest)
    ensures NumberToken(s + rest) == NumberToken(s)
  {
    var sign := SignLength(s);
    SignStop(s, rest);
    DropConcat(s, rest, sign);
    WholeStop(s[sign..], rest);
    var end := sign + WholeLength(s[sign..]);
    DropConcat(s, rest, end);
    TailStop(s[end..], rest);
  }

  lemma WholeStop(s: string, rest: string)
    requires Stops(rest)
    ensures WholeLength(s + rest) == WholeLength(s)
  {
    DigitsStop(s, rest);
    if s == [] {
      assert s + rest == rest;
    }
  }

  /** A number token is read the same whatever text stops it. */
  lemma NumberStable(s: string, rest: string)
    requires ParseNumber(s).Got? && Stops(rest)
    ensures ParseNumber(s + rest) == Got(ParseNumber(s).value, ParseNumber(s).rest + rest)
  {
    TokenStop(s, rest);
    var t := NumberToken(s);
    DropConcat(s, rest, t.Length());
    NumberValueSame(s, rest, t);
  }

  lemma NumberValueSame(s: string, rest: string, t: Token)
    requires t.Length() <= |s|
    ensures NumberValue(s + rest, t) == NumberValue(s, t)
  {
    assert (s + rest)[..t.Length()] == s[..t.Length()];
    assert (s + rest)[t.sign..t.sign + t.whole] == s[t.sign..t.sign + t.whole];
  }

  lemma {:induction false} DecToken(n: nat)
    ensures Digits(Dec(n)) == |Dec(n)|
    ensures Dec(n)[0] == '0' ==> |Dec(n)| == 1
  {
    if n >= 10 {
      DecToken(n / 10);
      var s, d := Dec(n / 10), [DigitChar(n % 10)];
      AllDigits(s + d);
    }
  }

  lemma {:induction false} AllDigits(s: string)
    requires forall c :: c in s ==> IsDigit(c)
    ensures Digits(s) == |s|
  {
    if s != [] {
      AllDigits(s[1..]);
    }
  }

  lemma WholeDec(n: nat)
    ensures WholeLength(Dec(n)) == |Dec(n)|
    ensures IsDigit(Dec(n)[0]) && ReadDec(Dec(n)) == n
  {
    DecToken(n);
    ReadDecDec(n);
    assert Dec(n)[0] in Dec(n);
  }

  lemma TokenOfWhole(s: string, sign: nat)
    requires sign <= |s| && SignLength(s) == sign && WholeLength(s[sign..]) == |s| - sign
    ensures NumberToken(s) == Token(sign, |s| - sign, 0) && s[|s|..] == []
  {
    assert s[sign + (|s| - sign)..] == [];
  }

  lemma SignedWhole(s: string, sign: nat)
    requires sign <= |s| && SignLength(s) == sign && s[sign..] != [] && WholeLength(s[sign..]) == |s| - sign
    ensures ParseNumber(s) == Got(NumberValue(s, Token(sign, |s| - sign, 0)), [])
  {
    TokenOfWhole(s, sign);
  }

  lemma WholeValue(s: string, sign: nat, digits: string)
    requires sign <= |s| && s[sign..] == digits
    ensures NumberValue(s, Token(sign, |s| - sign, 0)) == Int(if sign == 1 then -(ReadDec(digits) as int) else ReadDec(digits))
  {
    assert s[sign..|s|] == digits;
  }

  lemma MinusHead(s: string)
    ensures SignLength("-" + s) == 1 && ("-" + s)[1..] == s
  {
  }

  lemma DigitHead(s: string)
    requires s != [] && IsDigit(s[0])
    ensures SignLength(s) == 0 && s[0..] == s
  {
  }

  lemma ParseDigits(digits: string)
    requires digits != [] && IsDigit(digits[0]) && WholeLength(digits) == |digits|
    ensures ParseNumber(digits) == Got(Int(ReadDec(digits)), [])
  {
    DigitHead(digits);
    SignedWhole(digits, 0);
    WholeValue(digits, 0, digits);
  }

  lemma ParseMinusDigits(digits: string)
    requires digits != [] && IsDigit(digits[0]) && WholeLength(digits) == |digits|
    ensures ParseNumber("-" + digits) == Got(Int(-(ReadDec(digits) as int)), [])
  {
    MinusHead(digits);
    SignedWhole("-" + digits, 1);
    WholeValue("-" + digits, 1, digits);
  }

  lemma ParseInt(n: int)
    ensures ParseNumber(DecInt(n)) == Got(Int(n), [])
  {
    WholeDec(if n < 0 then -n else n);
    if n < 0 {
      ParseMinusDigits(Dec(-n));
    } else {
      ParseDigits(Dec(n));
    }
  }

  lemma ParseFloat(s: string)
    requires FloatText(s)
    ensures ParseNumber(s) == Got(Float(s), [])
  {
    assert s[..|s|] == s && s[|s|..] == [];
  }

  lemma HexDigitBack(d: nat)
    requires d < 16
    ensures HexValue(DigitChar(d)) == Some(d)
  {
  }

  lemma HexShort(n: nat)
    requires n < 32
    ensures Hex(4, n) == ['0', '0', DigitChar(n / 16), DigitChar(n % 16)]
  {
    var m, d := n / 16, n % 16;
    HexTwoZeros();
    assert m / 16 == 0 && m % 16 == m;
    HexStep(3, m);
    HexStep(4, n);
  }

  lemma HexStep(w: nat, n: nat)
    requires w > 0
    ensures Hex(w, n) == Hex(w - 1, n / 16) + [DigitChar(n % 16)]
  {
  }

  lemma HexTwoZeros()
    ensures Hex(2, 0) == ['0', '0']
  {
    assert Hex(1, 0) == Hex(0, 0) + ['0'] == ['0'];
    assert Hex(2, 0) == Hex(1, 0) + ['0'];
  }

  lemma UnicodeBack(c: char, rest: string)
    requires c < ' '
    ensures ParseUnicode(Hex(4, c as int) + rest) == Got(c, rest)
  {
    var n := c as int;
    HexShort(n);
    HexDigitBack(0);
    HexDigitBack(n / 16);
    HexDigitBack(n % 16);
    var s := Hex(4, n) + rest;
    assert s[0] == '0' && s[1] == '0' && s[2] == DigitChar(n / 16) && s[3] == DigitChar(n % 16);
    assert Hex4(s) == Some(n);
    assert s[4..] == rest;
  }

  /** A two-character escape, or a longer one, is read as its character. */
  lemma BackslashBack(c: char, e: string, rest: string)
    requires ParseEscape(e + rest) == Got(c, rest)
    ensures ParseString("\\" + e + rest) == Prepend(c, ParseString(rest))
  {
    assert ("\\" + e + rest)[1..] == e + rest;
  }

  lemma ShortEscapeBack(e: char, rest: string)
    requires ShortEscape(e).Some?
    ensures ParseString("\\" + [e] + rest) == Prepend(ShortEscape(e).value, ParseString(rest))
  {
    var s := [e] + rest;
    assert s[0] == e && s[1..] == rest;
    BackslashBack(ShortEscape(e).value, [e], rest);
  }

  lemma EscapeIsShort(c: char)
    ensures |Escape(c)| == 2 ==> Escape(c)[0] == '\\' && ShortEscape(Escape(c)[1]) == Some(c)
    ensures |Escape(c)| == 1 ==> Escape(c)[0] == c && c >= ' ' && c != '\"' && c != '\\'
    ensures |Escape(c)| == 1 || |Escape(c)| == 2 || (c < ' ' && Escape(c) == "\\u" + Hex(4, c as int))
  {
  }

  lemma PlainBack(c: char, rest: string)
    requires c >= ' ' && c != '\"' && c != '\\'
    ensures ParseString([c] + rest) == Prepend(c, ParseString(rest))
  {
    assert ([c] + rest)[0] == c && ([c] + rest)[1..] == rest;
  }

  lemma LongBack(c: char, rest: string)
    requires c < ' '
    ensures ParseString("\\u" + Hex(4, c as int) + rest) == Prepend(c, ParseString(rest))
  {
    UnicodeBack(c, rest);
    LongEscapeBack(c, Hex(4, c as int), rest);
  }

  lemma LongEscapeBack(c: char, h: string, rest: string)
    requires ParseUnicode(h + rest) == Got(c, rest)
    ensures ParseString("\\u" + h + rest) == Prepend(c, ParseString(rest))
  {
    var s := "u" + h;
    assert "\\u" + h == "\\" + s;
    assert (s + rest)[0] == 'u' && (s + rest)[1..] == h + rest;
    BackslashBack(c, s, rest);
  }

  /** One character of a literal, however it is written, is read back. */
  lemma CharBack(c: char, piece: string, rest: string)
    requires piece == Escape(c) || (c == '/' && piece == "\\/")
    ensures ParseString(piece + rest) == Prepend(c, ParseString(rest))
  {
    EscapeIsShort(c);
    if |piece| == 1 {
      assert piece == [c];
      PlainBack(c, rest);
    } else if |piece| == 2 {
      assert piece == "\\" + [piece[1]];
      ShortEscapeBack(piece[1], rest);
    } else {
      LongBack(c, rest);
    }
  }

  lemma CharThenBack(c: char, piece: string, more: string, end: string, t: string, rest: string)
    requires piece == Escape(c) || (c == '/' && piece == "\\/")
    requires ParseString(more + end) == Got(t, rest)
    ensures ParseString(piece + more + end) == Got([c] + t, rest)
  {
    Assoc(piece, more, end);
    CharBack(c, piece, more + end);
  }

  lemma EscapeStep(safe: bool, afterLess: bool, s: string) returns (piece: string)
    requires s != []
    ensures EscapeAll(safe, afterLess, s) == piece + EscapeAll(safe, s[0] == '<', s[1..])
    ensures piece == Escape(s[0]) || (s[0] == '/' && piece == "\\/")
  {
    piece := if safe && afterLess && s[0] == '/' then "\\/" else Escape(s[0]);
  }

  lemma StringEnd(rest: string)
    ensures ParseString("\"" + rest) == Got([], rest)
  {
    assert ("\"" + rest)[1..] == rest;
  }

  lemma {:induction false} StringBack(safe: bool, afterLess: bool, s: string, rest: string)
    ensures ParseString(EscapeAll(safe, afterLess, s) + ("\"" + rest)) == Got(s, rest)
    decreases |s|
  {
    var end := "\"" + rest;
    if s == [] {
      StringEnd(rest);
      assert EscapeAll(safe, afterLess, s) + end == end;
    } else {
      var piece := EscapeStep(safe, afterLess, s);
      StringBack(safe, s[0] == '<', s[1..], rest);
      CharThenBack(s[0], piece, EscapeAll(safe, s[0] == '<', s[1..]), end, s[1..], rest);
      assert [s[0]] + s[1..] == s;
    }
  }

  lemma QuoteBack(safe: bool, s: string, rest: string)
    ensures Heads(Quote(safe, s) + rest, '\"')
    ensures ParseString((Quote(safe, s) + rest)[1..]) == Got(s, rest)
  {
    var inside := EscapeAll(safe, false, s);
    assert (Quote(safe, s) + rest)[1..] == inside + ("\"" + rest);
    StringBack(safe, false, s, rest);
  }

  lemma NoSkip(s: string)
    requires s != [] && !IsSpace(s[0])
    ensures SkipSpace(s) == s
  {
  }

  /** Leading space is nothing to a value. */
  lemma SkipTwice(s: string)
    ensures ParseValue(s) == ParseValue(SkipSpace(s))
  {
    if SkipSpace(s) != [] {
      NoSkip(SkipSpace(s));
    }
  }

  // What the first character decides.

  /** A character that starts something other than a number. */
  predicate StartsOther(c: char) {
    IsSpace(c) || c == '\"' || c == '[' || c == '{' || c == 'n' || c == 't' || c == 'f'
  }

  lemma NumberDispatch(s: string)
    requires s != [] && !StartsOther(s[0])
    ensures ParseValue(s) == ParseNumber(s)
  {
  }

  lemma TextDispatch(s: string)
    ensures ParseValue("\"" + s) == ParseText(s)
  {
    assert ("\"" + s)[1..] == s;
  }

  lemma ArrayDispatch(s: string)
    ensures ParseValue("[" + s) == ParseArray(s)
  {
    assert ("[" + s)[1..] == s;
  }

  lemma ObjectDispatch(s: string)
    ensures ParseValue("{" + s) == ParseObject(s)
  {
    assert ("{" + s)[1..] == s;
  }

  lemma NumberHead(s: string)
    requires ParseNumber(s).Got?
    ensures s != [] && (s[0] == '-' || IsDigit(s[0])) && !StartsOther(s[0])
  {
    assert StartsDigit(s[SignLength(s)..]);
  }

  lemma NumberBack(text: string, v: Json, rest: string)
    requires ParseNumber(text) == Got(v, []) && Stops(rest)
    ensures ParseValue(text + rest) == Got(v, rest)
  {
    NumberStable(text, rest);
    assert [] + rest == rest;
    NumberHead(text + rest);
    NumberDispatch(text + rest);
  }

  lemma WordBack(word: string, v: Json, rest: string)
    requires (word == "null" && v == Null) || (word == "true" && v == Bool(true)) || (word == "false" && v == Bool(false))
    ensures ParseValue(word + rest) == Got(v, rest)
  {
    var s := word + rest;
    assert s[0] == word[0] && s[..|word|] == word && s[|word|..] == rest;
  }

  /** No value's text starts with a closing bracket or space. */
  predicate ValueHead(s: string) {
    s != [] && !IsSpace(s[0]) && s[0] != ']'
  }

  lemma PrintHead(safe: bool, v: Json)
    requires WellFormed(v)
    ensures ValueHead(Print(safe, v))
  {
    match v {
      case Int(n) => ParseInt(n); NumberHead(DecInt(n));
      case Float(lexeme) => ParseFloat(lexeme); NumberHead(lexeme);
      case _ =>
    }
  }

  /** Parsing the printed text of a value, followed by anything that ends it, gives the value back. */
  lemma {:induction false} ValueBack(safe: bool, v: Json, rest: string)
    requires WellFormed(v) && Stops(rest)
    ensures ParseValue(Print(safe, v) + rest) == Got(v, rest)
    decreases v, 1, 0
  {
    match v {
      case Null => WordBack("null", v, rest);
      case Bool(b) => WordBack(if b then "true" else "false", v, rest);
      case Int(n) => ParseInt(n); NumberBack(DecInt(n), v, rest);
      case Float(lexeme) => ParseFloat(lexeme); NumberBack(lexeme, v, rest);
      case Str(s) => TextBack(safe, s, rest);
      case Arr(items) => ArrayBack(safe, v, rest);
      case Obj(ms) => ObjectBack(safe, v, rest);
    }
  }

  lemma TextBack(safe: bool, s: string, rest: string)
    ensures ParseValue(Quote(safe, s) + rest) == Got(Str(s), rest)
  {
    QuoteBack(safe, s, rest);
    var inside := (Quote(safe, s) + rest)[1..];
    assert Quote(safe, s) + rest == "\"" + inside;
    TextDispatch(inside);
  }

  lemma EmptyArray(rest: string)
    ensures ParseValue("[]" + rest) == Got(Arr([]), rest)
  {
    assert "[]" + rest == "[" + ("]" + rest);
    ArrayDispatch("]" + rest);
    NoSkip("]" + rest);
    assert ("]" + rest)[1..] == rest;
  }

  lemma EmptyObject(rest: string)
    ensures ParseValue("{}" + rest) == Got(Obj([]), rest)
  {
    assert "{}" + rest == "{" + ("}" + rest);
    ObjectDispatch("}" + rest);
    NoSkip("}" + rest);
    assert ("}" + rest)[1..] == rest;
  }

  lemma NonEmptyArray(s: string)
    requires s != [] && !IsSpace(s[0]) && s[0] != ']'
    ensures ParseValue("[" + s) == ParseItems(s, [])
  {
    ArrayDispatch(s);
    NoSkip(s);
  }

  lemma NonEmptyObject(s: string)
    requires s != [] && !IsSpace(s[0]) && s[0] != '}'
    ensures ParseValue("{" + s) == ParseMembers(s, [])
  {
    ObjectDispatch(s);
    NoSkip(s);
  }

  lemma ItemsHead(safe: bool, items: seq<Json>, rest: string)
    requires items != [] && WellFormed(items[0])
    ensures ValueHead(PrintItems(safe, items) + rest)
  {
    PrintHead(safe, items[0]);
    var text := PrintItems(safe, items) + rest;
    assert text[0] == Print(safe, items[0])[0];
  }

  lemma {:induction false} ArrayBack(safe: bool, v: Json, rest: string)
    requires v.Arr? && WellFormed(v)
    ensures ParseValue(Print(safe, v) + rest) == Got(v, rest)
    decreases v, 0, |v.items| + 1
  {
    if v.items == [] {
      assert Print(safe, v) == "[]";
      EmptyArray(rest);
    } else {
      var inside := PrintItems(safe, v.items);
      ItemsHead(safe, v.items, rest);
      assert Print(safe, v) == "[" + inside;
      Assoc("[", inside, rest);
      NonEmptyArray(inside + rest);
      ItemsBack(safe, v, v.items, [], rest);
      assert [] + v.items == v.items;
    }
  }

  lemma Assoc(a: string, b: string, c: string)
    ensures a + b + c == a + (b + c)
  {
  }

  lemma ItemStep(s: string, v: Json, u: string, done: seq<Json>)
    requires ParseValue(s) == Got(v, u) && SkipSpace(u) == u
    ensures Heads(u, ',') ==> ParseItems(s, done) == ParseItems(u[1..], done + [v])
    ensures Heads(u, ']') ==> ParseItems(s, done) == Got(Arr(done + [v]), u[1..])
  {
  }

  lemma ItemNext(s: string, v: Json, u: string, done: seq<Json>)
    requires ParseValue(s) == Got(v, "," + u)
    ensures ParseItems(s, done) == ParseItems(u, done + [v])
  {
    var more := "," + u;
    NoSkip(more);
    assert more[1..] == u;
    ItemStep(s, v, more, done);
  }

  lemma ItemLast(s: string, v: Json, rest: string, done: seq<Json>)
    requires ParseValue(s) == Got(v, "]" + rest)
    ensures ParseItems(s, done) == Got(Arr(done + [v]), rest)
  {
    var more := "]" + rest;
    NoSkip(more);
    assert more[1..] == rest;
    ItemStep(s, v, more, done);
  }

  lemma TailEnds(safe: bool, more: seq<Json>, rest: string)
    ensures more == [] ==> ItemsTail(safe, more) == "]"
    ensures more != [] ==> ItemsTail(safe, more) == "," + PrintItems(safe, more)
    ensures Stops(ItemsTail(safe, more) + rest)
  {
    assert (ItemsTail(safe, more) + rest)[0] == if more == [] then ']' else ',';
  }

  lemma ItemRead(safe: bool, items: seq<Json>, rest: string)
    requires items != []
    requires var tail := ItemsTail(safe, items[1..]) + rest;
             ParseValue(Print(safe, items[0]) + tail) == Got(items[0], tail)
    ensures ParseValue(PrintItems(safe, items) + rest) == Got(items[0], ItemsTail(safe, items[1..]) + rest)
  {
    Assoc(Print(safe, items[0]), ItemsTail(safe, items[1..]), rest);
  }

  lemma ItemsMore(s: string, v: Json, u: string, more: seq<Json>, done: seq<Json>, rest: string)
    requires ParseValue(s) == Got(v, "," + u) && ParseItems(u, done + [v]) == Got(Arr(done + [v] + more), rest)
    ensures ParseItems(s, done) == Got(Arr(done + ([v] + more)), rest)
  {
    ItemNext(s, v, u, done);
    assert done + [v] + more == done + ([v] + more);
  }

  /** The first item is read, and then the bracket or the other items. */
  lemma ItemsStep(safe: bool, items: seq<Json>, done: seq<Json>, rest: string)
    requires items != []
    requires ParseValue(PrintItems(safe, items) + rest) == Got(items[0], ItemsTail(safe, items[1..]) + rest)
    requires |items| > 1 ==>
               ParseItems(PrintItems(safe, items[1..]) + rest, done + [items[0]]) == Got(Arr(done + [items[0]] + items[1..]), rest)
    ensures ParseItems(PrintItems(safe, items) + rest, done) == Got(Arr(done + items), rest)
  {
    var v, more := items[0], items[1..];
    assert items == [v] + more;
    TailEnds(safe, more, rest);
    if more == [] {
      ItemLast(PrintItems(safe, items) + rest, v, rest, done);
      assert done + items == done + [v];
    } else {
      Assoc(",", PrintItems(safe, more), rest);
      ItemsMore(PrintItems(safe, items) + rest, v, PrintItems(safe, more) + rest, more, done, rest);
    }
  }

  lemma {:induction false} ItemsBack(safe: bool, parent: Json, items: seq<Json>, done: seq<Json>, rest: string)
    requires parent.Arr? && items != [] && AllWellFormed(items)
    requires forall v :: v in items ==> v in parent.items
    ensures ParseItems(PrintItems(safe, items) + rest, done) == Got(Arr(done + items), rest)
    decreases parent, 0, |items|
  {
    var v, more := items[0], items[1..];
    assert v in parent.items;
    TailEnds(safe, more, rest);
    ValueBack(safe, v, ItemsTail(safe, more) + rest);
    ItemRead(safe, items, rest);
    if more != [] {
      ItemsBack(safe, parent, more, done + [v], rest);
    }
    ItemsStep(safe, items, done, rest);
  }

  lemma MembersHead(safe: bool, ms: seq<Member>, rest: string)
    requires ms != []
    ensures Heads(PrintMembers(safe, ms) + rest, '\"')
  {
    QuoteHead(safe, ms[0].key, ":" + (Print(safe, ms[0].value) + MembersTail(safe, ms[1..])), rest);
  }

  lemma QuoteHead(safe: bool, key: string, more: string, rest: string)
    ensures Heads(Quote(safe, key) + more + rest, '\"')
  {
  }

  lemma {:induction false} ObjectBack(safe: bool, v: Json, rest: string)
    requires v.Obj? && WellFormed(v)
    ensures ParseValue(Print(safe, v) + rest) == Got(v, rest)
    decreases v, 0, |v.members| + 1
  {
    if v.members == [] {
      assert Print(safe, v) == "{}";
      EmptyObject(rest);
    } else {
      var inside := PrintMembers(safe, v.members);
      MembersHead(safe, v.members, rest);
      assert Print(safe, v) == "{" + inside;
      Assoc("{", inside, rest);
      NonEmptyObject(inside + rest);
      MembersBack(safe, v, v.members, [], rest);
      assert [] + v.members == v.members;
    }
  }

  lemma {:induction false} PutNew(ms: seq<Member>, m: Member)
    requires forall i :: 0 <= i < |ms| ==> ms[i].key != m.key
    ensures Put(ms, m) == ms + [m]
  {
    if ms != [] {
      PutNew(ms[1..], m);
      assert [ms[0]] + (ms[1..] + [m]) == ms + [m];
    }
  }

  lemma KeyBack(safe: bool, key: string, rest: string)
    ensures ParseKey(Quote(safe, key) + (":" + rest)) == Got(key, rest)
  {
    QuoteBack(safe, key, ":" + rest);
    NoSkip(Quote(safe, key) + (":" + rest));
    NoSkip(":" + rest);
    assert (":" + rest)[1..] == rest;
  }

  lemma MemberHead(key: string, keyText: string, text: string, tail: string, rest: string)
    requires ParseKey(keyText + (":" + (text + (tail + rest)))) == Got(key, text + (tail + rest))
    ensures ParseKey(keyText + (":" + (text + tail)) + rest) == Got(key, text + (tail + rest))
  {
    assert keyText + (":" + (text + tail)) + rest == keyText + (":" + (text + (tail + rest)));
  }

  lemma MemberStep(s: string, m: Member, t: string, u: string, done: seq<Member>)
    requires ParseKey(s) == Got(m.key, t) && ParseValue(t) == Got(m.value, u) && SkipSpace(u) == u
    ensures Heads(u, ',') ==> ParseMembers(s, done) == ParseMembers(u[1..], Put(done, m))
    ensures Heads(u, '}') ==> ParseMembers(s, done) == Got(Obj(Put(done, m)), u[1..])
  {
  }

  lemma MemberNext(s: string, m: Member, t: string, u: string, done: seq<Member>)
    requires ParseKey(s) == Got(m.key, t) && ParseValue(t) == Got(m.value, "," + u)
    ensures ParseMembers(s, done) == ParseMembers(u, Put(done, m))
  {
    var more := "," + u;
    NoSkip(more);
    assert more[1..] == u;
    MemberStep(s, m, t, more, done);
  }

  lemma MemberLast(s: string, m: Member, t: string, rest: string, done: seq<Member>)
    requires ParseKey(s) == Got(m.key, t) && ParseValue(t) == Got(m.value, "}" + rest)
    ensures ParseMembers(s, done) == Got(Obj(Put(done, m)), rest)
  {
    var more := "}" + rest;
    NoSkip(more);
    assert more[1..] == rest;
    MemberStep(s, m, t, more, done);
  }

  lemma PutNext(done: seq<Member>, ms: seq<Member>)
    requires ms != [] && DistinctKeys(done + ms)
    ensures Put(done, ms[0]) == done + [ms[0]] && done + [ms[0]] + ms[1..] == done + ms
  {
    forall i | 0 <= i < |done| ensures done[i].key != ms[0].key {
      assert (done + ms)[i] == done[i] && (done + ms)[|done|] == ms[0];
    }
    PutNew(done, ms[0]);
  }

  lemma {:induction false} MembersBack(safe: bool, parent: Json, ms: seq<Member>, done: seq<Member>, rest: string)
    requires parent.Obj? && ms != [] && MembersWellFormed(ms) && DistinctKeys(done + ms)
    requires forall m :: m in ms ==> m in parent.members
    ensures ParseMembers(PrintMembers(safe, ms) + rest, done) == Got(Obj(done + ms), rest)
    decreases parent, 0, |ms|
  {
    var m, more := ms[0], ms[1..];
    var s, text, tail := PrintMembers(safe, ms) + rest, Print(safe, m.value), MembersTail(safe, more);
    assert m in parent.members;
    KeyBack(safe, m.key, text + (tail + rest));
    MemberHead(m.key, Quote(safe, m.key), text, tail, rest);
    ValueBack(safe, m.value, tail + rest);
    PutNext(done, ms);
    if more == [] {
      MemberLast(s, m, text + (tail + rest), rest, done);
      assert done + [m] == done + ms;
    } else {
      Assoc(",", PrintMembers(safe, more), rest);
      MemberNext(s, m, text + (tail + rest), PrintMembers(safe, more) + rest, done);
      MembersBack(safe, parent, more, done + [m], rest);
    }
  }

  /** Printing and parsing a whole text. */
  lemma PrintParses(safe: bool, v: Json)
    requires WellFormed(v)
    ensures Loads(Print(safe, v)) == Some(v)
  {
    ValueBack(safe, v, []);
    assert Print(safe, v) + [] == Print(safe, v);
  }
}
