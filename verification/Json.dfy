/** JSON trees and texts of src/cJSON.c, as values. A `char` is a byte of the text. */
module Json {
  const NESTING_LIMIT := 1000
  const INT_MAX := 0x7FFF_FFFF
  const INT_MIN := -INT_MAX - 1
  const NUL := '\0'

  /** A number carries its double and its saturated int. */
  datatype Json =
    | Null | False | True
    | Number(value: real, whole: int)
    | String(text: string)
    | Array(items: seq<Json>)
    | Object(members: seq<Member>)

  datatype Member = Member(name: string, value: Json)

  /** The C library: `strtod` gives value and length of the number a text starts with, `render` the
      text of a double that is no int. */
  datatype Numbers = Numbers(strtod: string -> Scan, render: real -> string)
  datatype Scan = Scan(value: real, used: nat)

  // ---- The printed text ----

  function Digit(n: nat): char
    requires n < 16
  {
    if n < 10 then '0' + n as char else 'a' + (n - 10) as char
  }

  function Digits(n: nat): (r: string)
    ensures |r| > 0 && forall i :: 0 <= i < |r| ==> '0' <= r[i] <= '9'
  {
    if n < 10 then [Digit(n)] else Digits(n / 10) + [Digit(n % 10)]
  }

  /** The number that decimal digits stand for. */
  function DigitsValue(s: string): nat
    requires forall i :: 0 <= i < |s| ==> '0' <= s[i] <= '9'
  {
    if s == "" then 0 else DigitsValue(s[..|s| - 1]) * 10 + (s[|s| - 1] as nat - '0' as nat)
  }

  /** They are written without leading zeros and stand for the number. */
  lemma {:induction false} DigitsRead(n: nat)
    ensures DigitsValue(Digits(n)) == n && (n > 0 ==> Digits(n)[0] != '0')
  {
    if n >= 10 {
      DigitsRead(n / 10);
      assert Digits(n)[..|Digits(n)| - 1] == Digits(n / 10);
    } else {
      assert DigitsValue("") == 0 && Digits(n)[..0] == "";
    }
  }

  /** `%d`. */
  function Decimal(n: int): string {
    if n < 0 then "-" + Digits(-n) else Digits(n)
  }

  function NumberText(lib: Numbers, v: Json): string
    requires v.Number?
  {
    if v.value == v.whole as real then Decimal(v.whole) else lib.render(v.value)
  }

  function Escaped(c: char): (r: string)
    ensures |r| > 0
  {
    if c == '\"' then "\\\""
    else if c == '\\' then "\\\\"
    else if c == '\U{8}' then "\\b"
    else if c == '\U{C}' then "\\f"
    else if c == '\n' then "\\n"
    else if c == '\r' then "\\r"
    else if c == '\t' then "\\t"
    else if c < ' ' then "\\u00" + [Digit(c as nat / 16), Digit(c as nat % 16)]
    else [c]
  }

  function EscapedAll(s: string): (r: string)
    ensures |r| >= |s|
  {
    if s == "" then "" else Escaped(s[0]) + EscapedAll(s[1..])
  }

  /** The text of a string holds no control bytes; a quote, a backslash and five control bytes take two bytes, the
      others six, everything else stands for itself. */
  lemma {:induction false} EscapedClean(s: string)
    ensures forall i :: 0 <= i < |EscapedAll(s)| ==> EscapedAll(s)[i] >= ' '
    ensures s != "" ==>
      |Escaped(s[0])| == (if s[0] in "\"\\\U{8}\U{C}\n\r\t" then 2 else if s[0] < ' ' then 6 else 1)
  {
    if s != "" { EscapedClean(s[1..]); }
  }

  function Quoted(s: string): string {
    "\"" + EscapedAll(s) + "\""
  }

  function Tabs(n: nat): string {
    seq(n, _ => '\t')
  }

  function Indent(fmt: bool, depth: nat): nat {
    if fmt then depth else 0
  }

  /** The text of a value printed at nesting depth `depth`. */
  function Text(lib: Numbers, v: Json, fmt: bool, depth: nat): string {
    match v
    case Null => "null"
    case False => "false"
    case True => "true"
    case Number(_, _) => NumberText(lib, v)
    case String(s) => Quoted(s)
    case Array(items) => "[" + Items(lib, items, fmt, depth + 1) + "]"
    case Object(ms) => "{" + Newline(fmt) + Members(lib, ms, fmt, depth + 1) + Close(fmt, depth)
  }

  function Items(lib: Numbers, items: seq<Json>, fmt: bool, depth: nat): string {
    if items == [] then ""
    else Text(lib, items[0], fmt, depth) + Comma(|items| > 1, fmt) + Items(lib, items[1..], fmt, depth)
  }

  function Comma(more: bool, fmt: bool): (r: string)
    ensures if more then |r| > 0 && r[0] == ',' else r == ""
  {
    if !more then "" else if fmt then ", " else ","
  }

  function Members(lib: Numbers, ms: seq<Member>, fmt: bool, depth: nat): string {
    if ms == [] then "" else Line(lib, ms[0], |ms| > 1, fmt, depth) + Members(lib, ms[1..], fmt, depth)
  }

  function Line(lib: Numbers, m: Member, more: bool, fmt: bool, depth: nat): string {
    Name(m.name, fmt, depth) + Text(lib, m.value, fmt, depth) + Ending(more, fmt)
  }

  /** What stands before the value of a member, and after it. */
  function Name(name: string, fmt: bool, depth: nat): string {
    Tabs(Indent(fmt, depth)) + Quoted(name) + Colon(fmt)
  }

  function Colon(fmt: bool): string {
    if fmt then ":\t" else ":"
  }

  function Ending(more: bool, fmt: bool): string {
    (if more then "," else "") + Newline(fmt)
  }

  function Newline(fmt: bool): string {
    if fmt then "\n" else ""
  }

  function Close(fmt: bool, depth: nat): string {
    Tabs(Indent(fmt, depth)) + "}"
  }

  /** Nesting within the limit, and every number fits the number buffer. */
  predicate Printable(lib: Numbers, v: Json, depth: nat) {
    match v
    case Number(_, _) => |NumberText(lib, v)| <= 25
    case Array(items) => depth < NESTING_LIMIT && AllPrintable(lib, items, depth + 1)
    case Object(ms) => depth < NESTING_LIMIT && forall i :: 0 <= i < |ms| ==> Printable(lib, ms[i].value, depth + 1)
    case _ => true
  }

  predicate AllPrintable(lib: Numbers, items: seq<Json>, depth: nat) {
    forall i :: 0 <= i < |items| ==> Printable(lib, items[i], depth)
  }

  /** What a buffer holds as a C string: the bytes before the first NUL. */
  function CString(t: string): (r: string)
    ensures r <= t && NUL !in r && (r == t <==> NUL !in t)
  {
    if t == "" || t[0] == NUL then "" else [t[0]] + CString(t[1..])
  }

  /** The strings are C strings. */
  predicate Terminated(v: Json) {
    match v
    case String(s) => NUL !in s
    case Array(items) => forall i :: 0 <= i < |items| ==> Terminated(items[i])
    case Object(ms) => forall i :: 0 <= i < |ms| ==> NUL !in ms[i].name && Terminated(ms[i].value)
    case _ => true
  }

  lemma ItemsUnfold(lib: Numbers, items: seq<Json>, fmt: bool, d: nat)
    requires items != []
    ensures Items(lib, items, fmt, d) ==
            Text(lib, items[0], fmt, d) + Comma(|items| > 1, fmt) + Items(lib, items[1..], fmt, d)
    ensures |items| == 1 ==> Items(lib, items[1..], fmt, d) == ""
  {
  }

  lemma MembersUnfold(lib: Numbers, ms: seq<Member>, fmt: bool, d: nat)
    requires ms != []
    ensures Members(lib, ms, fmt, d) == Line(lib, ms[0], |ms| > 1, fmt, d) + Members(lib, ms[1..], fmt, d)
    ensures |ms| == 1 ==> Members(lib, ms[1..], fmt, d) == ""
  {
  }

  lemma OneLetter(c: char)
    requires 'a' <= c <= 'z'
    ensures Quoted([c]) == "\"" + [c] + "\""
  {
    assert EscapedAll([c]) == Escaped(c) + EscapedAll([c][1..]) == [c];
  }

  /** A member with an array, followed by another one, at the first level of nesting. */
  lemma MemberLooks(lib: Numbers, fmt: bool)
    ensures Line(lib, Member("a", Array([Number(1.0, 1), Null])), true, fmt, 1) ==
            if fmt then "\t\"a\":\t[1, null],\n" else "\"a\":[1,null],"
  {
    OneLetter('a');
    ArrayLooks(lib, fmt);
    assert Tabs(1) == "\t" && Tabs(0) == "";
    assert Name("a", fmt, 1) == if fmt then "\t\"a\":\t" else "\"a\":";
    assert Ending(true, fmt) == if fmt then ",\n" else ",";
  }

  /** An empty object, which formatted takes two lines, and the two words. */
  lemma EmptyLooks(lib: Numbers)
    ensures Text(lib, True, true, 0) == "true" && Text(lib, False, true, 0) == "false"
    ensures Text(lib, Object([]), true, 1) == "{\n\t}" && Text(lib, Object([]), false, 1) == "{}"
  {
    assert Tabs(1) == "\t" && Tabs(0) == "";
  }

  lemma ArrayLooks(lib: Numbers, fmt: bool)
    ensures Text(lib, Array([Number(1.0, 1), Null]), fmt, 1) == if fmt then "[1, null]" else "[1,null]"
  {
    var items := [Number(1.0, 1), Null];
    assert Digits(1) == "1";
    ItemsUnfold(lib, items, fmt, 2);
    assert items[1..] == [Null];
    ItemsUnfold(lib, [Null], fmt, 2);
  }
}
