/** JSON values and the compact printer `json.dumps(..., separators=(",", ":"), ensure_ascii=False)`. */
module Json {
  import opened Common
  import opened Numerals
  import opened Ordering

  /** A float is kept as the text Python prints for it. Members keep their order. */
  datatype Json =
    | Null | Bool(b: bool) | Int(n: int) | Float(lexeme: string) | Str(s: string)
    | Arr(items: seq<Json>) | Obj(members: seq<Member>)

  datatype Member = Member(key: string, value: Json)

  predicate DistinctKeys(ms: seq<Member>) {
    forall i, j :: 0 <= i < j < |ms| ==> ms[i].key != ms[j].key
  }

  /** What the first member with this key holds. */
  function Find(ms: seq<Member>, key: string): Option<Json> {
    if ms == [] then None else if ms[0].key == key then Some(ms[0].value) else Find(ms[1..], key)
  }

  // Number tokens: an integer part, then perhaps a fraction and an exponent.

  predicate StartsDigit(s: string) {
    s != [] && IsDigit(s[0])
  }

  function Digits(s: string): (n: nat)
    ensures n <= |s| && (n > 0 <==> StartsDigit(s))
  {
    if StartsDigit(s) then 1 + Digits(s[1..]) else 0
  }

  function SignLength(s: string): (n: nat)
    ensures n <= |s|
  {
    if s != [] && s[0] == '-' then 1 else 0
  }

  function WholeLength(s: string): (n: nat)
    ensures n <= |s| && (n > 0 <==> StartsDigit(s))
  {
    if s != [] && s[0] == '0' then 1 else Digits(s)
  }

  function FractionLength(s: string): (n: nat)
    ensures n <= |s|
  {
    if s != [] && s[0] == '.' && StartsDigit(s[1..]) then 1 + Digits(s[1..]) else 0
  }

  function ExponentLength(s: string): (n: nat)
    ensures n <= |s|
  {
    if s == [] || (s[0] != 'e' && s[0] != 'E') then 0
    else
      var sign := if |s| > 1 && (s[1] == '+' || s[1] == '-') then 1 else 0;
      var digits := Digits(s[1 + sign..]);
      if digits == 0 then 0 else 1 + sign + digits
  }

  /** Fraction and exponent together. */
  function TailLength(s: string): (n: nat)
    ensures n <= |s|
  {
    var fraction := FractionLength(s);
    fraction + ExponentLength(s[fraction..])
  }

  /** The three parts of the number token at the head of `s`; `whole == 0` means there is none. */
  datatype Token = Token(sign: nat, whole: nat, tail: nat) {
    function Length(): nat {
      sign + whole + tail
    }
  }

  function NumberToken(s: string): (t: Token)
    ensures t.Length() <= |s|
  {
    var sign := SignLength(s);
    var whole := WholeLength(s[sign..]);
    Token(sign, whole, TailLength(s[sign + whole..]))
  }

  /** A float's text: one number token with a fraction or an exponent. */
  predicate FloatText(s: string) {
    var t := NumberToken(s);
    t.whole > 0 && t.tail > 0 && t.Length() == |s|
  }

  /** Distinct keys in every object, and printable floats: what a Python value always has. */
  predicate WellFormed(v: Json) {
    match v
    case Float(lexeme) => FloatText(lexeme)
    case Arr(items) => AllWellFormed(items)
    case Obj(ms) => DistinctKeys(ms) && MembersWellFormed(ms)
    case _ => true
  }

  predicate AllWellFormed(vs: seq<Json>) {
    vs == [] || (WellFormed(vs[0]) && AllWellFormed(vs[1..]))
  }

  predicate MembersWellFormed(ms: seq<Member>) {
    ms == [] || (WellFormed(ms[0].value) && MembersWellFormed(ms[1..]))
  }

  // Printing.

  /** What stands for `c` inside a string literal: RFC 8259, section 7. */
  function Escape(c: char): string {
    if c == '\"' then "\\\""
    else if c == '\\' then "\\\\"
    else if c == '\n' then "\\n"
    else if c == '\r' then "\\r"
    else if c == '\t' then "\\t"
    else if c == 8 as char then "\\b"
    else if c == 12 as char then "\\f"
    else if c < ' ' then "\\u" + Hex(4, c as int)
    else [c]
  }

  /** A literal's inside; when `safe`, a slash right after `<` is written `\/`. */
  function EscapeAll(safe: bool, afterLess: bool, s: string): string
    decreases |s|
  {
    if s == [] then []
    else
      (if safe && afterLess && s[0] == '/' then "\\/" else Escape(s[0]))
      + EscapeAll(safe, s[0] == '<', s[1..])
  }

  function Quote(safe: bool, s: string): string {
    "\"" + (EscapeAll(safe, false, s) + "\"")
  }

  function Print(safe: bool, v: Json): string
    decreases v, 2
  {
    match v
    case Null => "null"
    case Bool(b) => if b then "true" else "false"
    case Int(n) => DecInt(n)
    case Float(lexeme) => lexeme
    case Str(s) => Quote(safe, s)
    case Arr(items) => "[" + (if items == [] then "]" else PrintItems(safe, items))
    case Obj(ms) => "{" + (if ms == [] then "}" else PrintMembers(safe, ms))
  }

  /** The items, with what separates and ends them. */
  function PrintItems(safe: bool, items: seq<Json>): string
    requires items != []
    decreases items, 0
  {
    Print(safe, items[0]) + ItemsTail(safe, items[1..])
  }

  function ItemsTail(safe: bool, items: seq<Json>): string
    decreases items, 1
  {
    if items == [] then "]" else "," + PrintItems(safe, items)
  }

  function PrintMembers(safe: bool, ms: seq<Member>): string
    requires ms != []
    decreases ms, 0
  {
    Quote(safe, ms[0].key) + (":" + (Print(safe, ms[0].value) + MembersTail(safe, ms[1..])))
  }

  function MembersTail(safe: bool, ms: seq<Member>): string
    decreases ms, 1
  {
    if ms == [] then "}" else "," + PrintMembers(safe, ms)
  }

  // `sort_keys=True`.

  predicate KeyLeq(a: Member, b: Member) {
    StringLeq(a.key, b.key)
  }

  function SortKeys(v: Json): Json {
    match v
    case Arr(items) => Arr(SortKeysAll(items))
    case Obj(ms) => Obj(SortBy(KeyLeq, SortKeysMembers(ms)))
    case _ => v
  }

  function SortKeysAll(vs: seq<Json>): seq<Json> {
    if vs == [] then [] else [SortKeys(vs[0])] + SortKeysAll(vs[1..])
  }

  function SortKeysMembers(ms: seq<Member>): seq<Member> {
    if ms == [] then [] else [Member(ms[0].key, SortKeys(ms[0].value))] + SortKeysMembers(ms[1..])
  }

  /** `canonical_json` of ledger.py. */
  function CanonicalJson(v: Json): string {
    Print(false, SortKeys(v))
  }
}
