/** The parser of src/cJSON.c: what it accepts, as functions of text and position, and the parser
    itself, which moves an offset and writes into buffers of a size computed in advance. */
module JsonParser {
  import opened Json
  import opened Options

  datatype Parsed<T> = Fail | Ok(value: T, next: nat)

  /** The number scanner never reads more than it is given. */
  ghost predicate Sane(lib: Numbers) {
    forall t :: lib.strtod(t).used <= |t|
  }

  // ---- Tokens ----

  predicate At(s: string, i: nat, t: string) {
    i + |t| <= |s| && s[i..i + |t|] == t
  }

  /** The first byte above space at or after `i`. */
  function Blank(s: string, i: nat): (j: nat)
    requires i <= |s|
    ensures i <= j <= |s|
    decreases |s| - i
  {
    if i < |s| && s[i] <= ' ' then Blank(s, i + 1) else i
  }

  /** buffer_skip_whitespace: at the end of the buffer it stays on the last byte. */
  function Skip(s: string, i: nat): (j: nat)
    requires i <= |s|
    ensures i <= j <= |s| && (i < |s| ==> j < |s|)
  {
    var j := Blank(s, i);
    if i < |s| && j == |s| then |s| - 1 else j
  }

  predicate NumberByte(c: char) {
    '0' <= c <= '9' || c == '+' || c == '-' || c == 'e' || c == 'E' || c == '.'
  }

  function NumberEnd(s: string, i: nat): (j: nat)
    requires i <= |s|
    ensures i <= j <= |s|
    decreases |s| - i
  {
    if i < |s| && NumberByte(s[i]) then NumberEnd(s, i + 1) else i
  }

  /** Where white space and numbers end. */
  lemma {:induction false} BlankIs(s: string, i: nat)
    requires i <= |s|
    ensures var j := Blank(s, i); (forall k :: i <= k < j ==> s[k] <= ' ') && (j < |s| ==> s[j] > ' ')
    decreases |s| - i
  {
    if i < |s| && s[i] <= ' ' { BlankIs(s, i + 1); }
  }

  lemma {:induction false} NumberEndIs(s: string, i: nat)
    requires i <= |s|
    ensures var j := NumberEnd(s, i);
            (forall k :: i <= k < j ==> s[k] in "0123456789+-eE.") && (j < |s| ==> s[j] !in "0123456789+-eE.")
    decreases |s| - i
  {
    if i < |s| && NumberByte(s[i]) { NumberEndIs(s, i + 1); }
  }

  function Saturated(x: real): int {
    if x >= INT_MAX as real then INT_MAX
    else if x <= INT_MIN as real then INT_MIN
    else if x >= 0.0 then x.Floor else -((-x).Floor)
  }

  function NumberAt(lib: Numbers, s: string, i: nat): (r: Parsed<Json>)
    requires i <= |s| && Sane(lib)
    ensures r.Ok? ==> i < r.next <= |s|
  {
    var scan := lib.strtod(s[i..NumberEnd(s, i)]);
    if scan.used == 0 then Fail else Ok(Number(scan.value, Saturated(scan.value)), i + scan.used)
  }

  // ---- String literals ----

  function HexDigit(c: char): (d: int)
    ensures -1 <= d < 16
  {
    if '0' <= c <= '9' then c as int - '0' as int
    else if 'A' <= c <= 'F' then 10 + c as int - 'A' as int
    else if 'a' <= c <= 'f' then 10 + c as int - 'a' as int
    else -1
  }

  /** Value of the hexadecimal digits `t`, 0 if one of them is none. */
  function HexValue(t: string): (h: nat)
    ensures h == 0 || forall i :: 0 <= i < |t| ==> HexDigit(t[i]) >= 0
  {
    if t == "" then 0
    else
      var d := HexDigit(t[|t| - 1]);
      if d < 0 || (exists i :: 0 <= i < |t| && HexDigit(t[i]) < 0) then 0 else HexValue(t[..|t| - 1]) * 16 + d
  }

  lemma NoHex(t: string)
    requires t == ""
    ensures HexValue(t) == 0
  {
  }

  lemma MoreHex(t: string, i: nat)
    requires i < |t| && forall k :: 0 <= k <= i ==> HexDigit(t[k]) >= 0
    ensures HexValue(t[..i + 1]) == HexValue(t[..i]) * 16 + HexDigit(t[i])
  {
    assert t[..i + 1][..i] == t[..i];
  }

  /** `cp >> 6 * k`. */
  function Shifted(cp: nat, k: nat): nat {
    if k == 0 then cp else Shifted(cp / 64, k - 1)
  }

  function Continuation(cp: nat, n: nat): (r: string)
    ensures |r| == n
  {
    if n == 0 then "" else Continuation(cp / 64, n - 1) + [(0x80 + cp % 64) as char]
  }

  function Utf8Length(cp: nat): nat {
    if cp < 0x80 then 1 else if cp < 0x800 then 2 else if cp < 0x10000 then 3 else 4
  }

  function Mark(len: nat): nat {
    if len == 1 then 0 else if len == 2 then 0xC0 else if len == 3 then 0xE0 else 0xF0
  }

  lemma LeadFits(cp: nat)
    requires cp <= 0x10FFFF
    ensures Mark(Utf8Length(cp)) + Shifted(cp, Utf8Length(cp) - 1) < 0xF8
  {
    var a, b, c := cp / 64, cp / 64 / 64, cp / 64 / 64 / 64;
    assert Shifted(cp, 1) == Shifted(a, 0) == a;
    assert Shifted(cp, 2) == Shifted(a, 1) == Shifted(b, 0) == b;
    assert Shifted(cp, 3) == Shifted(a, 2) == Shifted(b, 1) == Shifted(c, 0) == c;
  }

  /** The UTF-8 form of a code point. */
  function Utf8(cp: nat): (r: string)
    requires cp <= 0x10FFFF
    ensures |r| == Utf8Length(cp)
  {
    LeadFits(cp);
    var n := Utf8Length(cp);
    [(Mark(n) + Shifted(cp, n - 1)) as char] + Continuation(cp, n - 1)
  }

  /** The code point put together from lead payload and continuation bytes. */
  function Assembled(lead: nat, rest: string): nat {
    if rest == "" then lead else Assembled(lead, rest[..|rest| - 1]) * 64 + rest[|rest| - 1] as nat % 64
  }

  /** The encoding keeps the code point. */
  lemma {:induction false} Utf8Keeps(cp: nat, n: nat)
    ensures Assembled(Shifted(cp, n), Continuation(cp, n)) == cp
  {
    if n > 0 {
      Utf8Keeps(cp / 64, n - 1);
      assert Continuation(cp, n)[..n - 1] == Continuation(cp / 64, n - 1);
    }
  }

  // ---- A decoder that goes by the lead byte ----

  /** Bytes of the form that starts with `b`, 0 if none does. */
  function LeadLength(b: char): nat {
    if b < '\U{80}' then 1
    else if '\U{C0}' <= b < '\U{E0}' then 2
    else if '\U{E0}' <= b < '\U{F0}' then 3
    else if '\U{F0}' <= b < '\U{F8}' then 4
    else 0
  }

  function LeadPayload(b: char): nat {
    if b < '\U{80}' then b as nat
    else if b < '\U{E0}' then b as nat % 0x20
    else if b < '\U{F0}' then b as nat % 0x10
    else b as nat % 0x08
  }

  predicate Continues(s: string) {
    forall i :: 0 <= i < |s| ==> '\U{80}' <= s[i] < '\U{C0}'
  }

  /** The code point that `s` starts with, and the bytes of its form. */
  function DecodeUtf8(s: string): Option<(nat, nat)> {
    if s == "" then None
    else
      var n := LeadLength(s[0]);
      if n == 0 || n > |s| || !Continues(s[1..n]) then None
      else Some((Assembled(LeadPayload(s[0]), s[1..n]), n))
  }

  lemma {:induction false} ContinuationContinues(cp: nat, n: nat)
    ensures Continues(Continuation(cp, n))
  {
    if n > 0 { ContinuationContinues(cp / 64, n - 1); }
  }

  lemma LeadOf(cp: nat)
    requires cp <= 0x10FFFF
    ensures var n, b := Utf8Length(cp), Utf8(cp)[0]; LeadLength(b) == n && LeadPayload(b) == Shifted(cp, n - 1)
  {
    LeadFits(cp);
    var a, b, c := cp / 64, cp / 64 / 64, cp / 64 / 64 / 64;
    assert Shifted(cp, 0) == cp;
    assert Shifted(cp, 1) == Shifted(a, 0) == a;
    assert Shifted(cp, 2) == Shifted(a, 1) == Shifted(b, 0) == b;
    assert Shifted(cp, 3) == Shifted(a, 2) == Shifted(b, 1) == Shifted(c, 0) == c;
  }

  /** The encoding reads back, by its lead byte and whatever follows it. */
  lemma Utf8Decodes(cp: nat, rest: string)
    requires cp <= 0x10FFFF
    ensures DecodeUtf8(Utf8(cp) + rest) == Some((cp, |Utf8(cp)|))
  {
    hide Shifted, Mark;
    var n, t := Utf8Length(cp), Utf8(cp);
    LeadOf(cp);
    ContinuationContinues(cp, n - 1);
    Utf8Keeps(cp, n - 1);
    assert (t + rest)[0] == t[0] && (t + rest)[1..n] == t[1..] == Continuation(cp, n - 1);
  }

  function Power64(k: nat): nat {
    if k == 0 then 1 else 64 * Power64(k - 1)
  }

  lemma {:induction false} AssembledBelow(lead: nat, rest: string)
    ensures Assembled(lead, rest) < (lead + 1) * Power64(|rest|)
  {
    if rest != "" {
      AssembledBelow(lead, rest[..|rest| - 1]);
      var x, p := Assembled(lead, rest[..|rest| - 1]), Power64(|rest| - 1);
      assert x + 1 <= (lead + 1) * p;
      assert (lead + 1) * (64 * p) == 64 * ((lead + 1) * p);
    }
  }

  /** No shorter form stands for the code point. */
  lemma Utf8Shortest(cp: nat, s: string)
    requires cp <= 0x10FFFF && DecodeUtf8(s).Some? && DecodeUtf8(s).value.0 == cp
    ensures |Utf8(cp)| <= DecodeUtf8(s).value.1
  {
    var n := LeadLength(s[0]);
    AssembledBelow(LeadPayload(s[0]), s[1..n]);
    assert Power64(1) == 64 && Power64(2) == 64 * Power64(1) && Power64(3) == 64 * Power64(2);
  }

  lemma HexDigitIs(c: char)
    ensures HexDigit(c) >= 0 <==> '0' <= c <= '9' || 'a' <= c <= 'f' || 'A' <= c <= 'F'
    ensures forall d: nat :: d < 16 ==>
      (HexDigit(c) == d <==> c == Digit(d) || (d >= 10 && c == 'A' + (d - 10) as char))
  {
  }

  /** Four digits, of either case, have the value they are written for. */
  lemma HexReads(t: string, a: nat, b: nat, c: nat, d: nat)
    requires |t| == 4 && a < 16 && b < 16 && c < 16 && d < 16
    requires HexDigit(t[0]) == a && HexDigit(t[1]) == b && HexDigit(t[2]) == c && HexDigit(t[3]) == d
    ensures HexValue(t) == ((a * 16 + b) * 16 + c) * 16 + d
  {
    hide HexValue, HexDigit;
    assert t[..4] == t;
    NoHex(t[..0]);
    MoreHex(t, 0);
    MoreHex(t, 1);
    MoreHex(t, 2);
    MoreHex(t, 3);
  }

  /** A single escape stands for its code point, unless that is a surrogate. */
  lemma SingleReads(s: string, p: nat, e: nat)
    requires p + 6 <= e <= |s|
    ensures var cp := HexValue(s[p + 2..p + 6]);
            (cp < 0xD800 || 0xDFFF < cp <= 0xFFFF) ==> Utf16(s, p, e) == Esc(Utf8(cp), 6)
  {
    hide HexValue, Utf8;
  }

  /** The saturated int: the double cut towards zero, within the range of an int. */
  lemma SaturatedIs(x: real)
    ensures var n := Saturated(x);
            && INT_MIN <= n <= INT_MAX
            && (x > INT_MAX as real ==> n == INT_MAX) && (x < INT_MIN as real ==> n == INT_MIN)
            && (INT_MIN as real <= x <= INT_MAX as real ==>
                  if x >= 0.0 then n as real <= x < n as real + 1.0 else n as real - 1.0 < x <= n as real)
  {
  }

  /** A surrogate pair stands for the code point it was made from. */
  lemma PairReads(s: string, p: nat, e: nat, cp: nat)
    requires p + 12 <= e <= |s| && 0x10000 <= cp <= 0x10FFFF && s[p + 6] == '\\' && s[p + 7] == 'u'
    requires HexValue(s[p + 2..p + 6]) == 0xD800 + (cp - 0x10000) / 0x400
    requires HexValue(s[p + 8..p + 12]) == 0xDC00 + (cp - 0x10000) % 0x400
    ensures Utf16(s, p, e) == Esc(Utf8(cp), 12)
  {
    hide HexValue, Utf8;
    var first, second := HexValue(s[p + 2..p + 6]), HexValue(s[p + 8..p + 12]);
    assert first % 0x400 == (cp - 0x10000) / 0x400 && second % 0x400 == (cp - 0x10000) % 0x400;
  }

  datatype Escape = Bad | Esc(out: string, len: nat)

  /** utf16_literal_to_utf8 at `p`, in a literal that ends at `e`. */
  function Utf16(s: string, p: nat, e: nat): Escape
    requires p <= e <= |s|
  {
    if e - p < 6 then Bad
    else
      var first := HexValue(s[p + 2..p + 6]);
      if 0xDC00 <= first <= 0xDFFF then Bad
      else if 0xD800 <= first <= 0xDBFF then
        if e - p < 12 || s[p + 6] != '\\' || s[p + 7] != 'u' then Bad
        else
          var second := HexValue(s[p + 8..p + 12]);
          if second < 0xDC00 || second > 0xDFFF then Bad
          else Esc(Utf8(0x10000 + first % 0x400 * 0x400 + second % 0x400), 12)
      else if first <= 0x10FFFF then Esc(Utf8(first), 6) else Bad
  }

  function EscapeAt(s: string, p: nat, e: nat): Escape
    requires p < e < |s|
  {
    var c := s[p + 1];
    if c == 'b' then Esc("\U{8}", 2)
    else if c == 'f' then Esc("\U{C}", 2)
    else if c == 'n' then Esc("\n", 2)
    else if c == 'r' then Esc("\r", 2)
    else if c == 't' then Esc("\t", 2)
    else if c == '\"' || c == '\\' || c == '/' then Esc([c], 2)
    else if c == 'u' then Utf16(s, p, e)
    else Bad
  }

  /** The two-byte escapes stand for backspace, form feed, line feed, carriage return and tab, and for quote,
      backslash and slash themselves. */
  lemma EscapeMeans(s: string, p: nat, e: nat)
    requires p < e < |s| && s[p + 1] != 'u'
    ensures EscapeAt(s, p, e).Esc? <==> s[p + 1] in "bfnrt\"\\/"
    ensures EscapeAt(s, p, e).Esc? ==>
      var r := EscapeAt(s, p, e);
      && r.len == 2 && |r.out| == 1
      && (r.out[0] as nat == if s[p + 1] == 'b' then 8 else if s[p + 1] == 't' then 9 else if s[p + 1] == 'n' then 10
          else if s[p + 1] == 'f' then 12 else if s[p + 1] == 'r' then 13 else s[p + 1] as nat)
  {
  }

  /** One plain byte or one escape. */
  function Unit(s: string, p: nat, e: nat): (r: Escape)
    requires p < e < |s|
    ensures r.Esc? ==> r.len > 0
  {
    if s[p] == '\\' then EscapeAt(s, p, e) else Esc([s[p]], 1)
  }

  lemma PlainUnit(s: string, p: nat, e: nat)
    requires p < e < |s| && s[p] != '\\'
    ensures Unit(s, p, e) == Esc([s[p]], 1)
  {
  }

  function Prepend(a: string, o: Option<string>): Option<string> {
    if o.None? then None else Some(a + o.value)
  }

  /** The string that the literal from `p` to `e` stands for. */
  function Unescape(s: string, p: nat, e: nat): Option<string>
    requires e < |s|
    decreases e - p
  {
    if p >= e then Some("")
    else
      var u := Unit(s, p, e);
      if u.Bad? then None else Prepend(u.out, Unescape(s, p + u.len, e))
  }

  /** The closing quote of a literal scanned from `i`, `|s|` if there is none. */
  function StringEnd(s: string, i: nat): (e: nat)
    ensures e <= |s| && (e < |s| ==> i <= e && s[e] == '\"')
    decreases |s| - i
  {
    if i >= |s| then |s|
    else if s[i] == '\"' then i
    else if s[i] == '\\' then StringEnd(s, i + 2)
    else StringEnd(s, i + 1)
  }

  /** parse_string at `i`. The tree holds the decoded bytes as a C string. */
  function StringAt(s: string, i: nat): (r: Parsed<string>)
    requires i < |s|
    ensures r.Ok? ==> i < r.next <= |s| && NUL !in r.value
  {
    if s[i] != '\"' then Fail
    else
      var e := StringEnd(s, i + 1);
      if e == |s| then Fail
      else
        var t := Unescape(s, i + 1, e);
        if t.None? then Fail else Ok(CString(t.value), e + 1)
  }

  /** A unit that stands for the byte NUL: a raw one, or `\u` with four digits of value 0 or with bytes
      that are no digits. */
  predicate ZeroUnit(s: string, p: nat, e: nat)
    requires p < e < |s|
  {
    s[p] == NUL || (s[p] == '\\' && s[p + 1] == 'u' && e - p >= 6 && HexValue(s[p + 2..p + 6]) == 0)
  }

  predicate HasZeroUnit(s: string, p: nat, e: nat)
    requires e < |s|
    decreases e - p
  {
    p < e && (ZeroUnit(s, p, e) || (Unit(s, p, e).Esc? && HasZeroUnit(s, p + Unit(s, p, e).len, e)))
  }

  lemma {:induction false} ContinuationNonzero(cp: nat, n: nat)
    ensures NUL !in Continuation(cp, n)
  {
    if n > 0 { ContinuationNonzero(cp / 64, n - 1); }
  }

  lemma Utf8Zero(cp: nat)
    requires cp <= 0x10FFFF
    ensures NUL in Utf8(cp) <==> cp == 0
  {
    var n := Utf8Length(cp);
    ContinuationNonzero(cp, n - 1);
    LeadFits(cp);
    assert Utf8(cp)[0] == (Mark(n) + Shifted(cp, n - 1)) as char;
    assert n == 1 ==> Utf8(cp) == [cp as char];
  }

  lemma UnitZero(s: string, p: nat, e: nat)
    requires p < e < |s| && Unit(s, p, e).Esc?
    ensures NUL in Unit(s, p, e).out <==> ZeroUnit(s, p, e)
  {
    hide HexValue, Utf8;
    if s[p] == '\\' && s[p + 1] == 'u' {
      var first := HexValue(s[p + 2..p + 6]);
      if 0xD800 <= first <= 0xDBFF {
        Utf8Zero(0x10000 + first % 0x400 * 0x400 + HexValue(s[p + 8..p + 12]) % 0x400);
      } else {
        Utf8Zero(first);
      }
    }
  }

  lemma {:induction false} UnescapeZero(s: string, p: nat, e: nat)
    requires e < |s| && Unescape(s, p, e).Some?
    ensures NUL in Unescape(s, p, e).value <==> HasZeroUnit(s, p, e)
    decreases e - p
  {
    hide Unit, ZeroUnit;
    if p < e {
      UnitZero(s, p, e);
      UnescapeZero(s, p + Unit(s, p, e).len, e);
    }
  }

  /** An accepted literal keeps all it stands for exactly if no unit of it stands for NUL; otherwise the
      rest of the string is lost. */
  lemma KeepsWholeIff(s: string, i: nat)
    requires i < |s| && StringAt(s, i).Ok?
    ensures var e := StringEnd(s, i + 1);
            && Unescape(s, i + 1, e).Some?
            && (StringAt(s, i).value == Unescape(s, i + 1, e).value <==> !HasZeroUnit(s, i + 1, e))
  {
    UnescapeZero(s, i + 1, StringEnd(s, i + 1));
  }

  // ---- Values ----

  /** What parse_value makes of the text at `i`, at nesting depth `d`. */
  function Value(lib: Numbers, s: string, i: nat, d: nat): (r: Parsed<Json>)
    requires i <= |s| && Sane(lib)
    ensures r.Ok? ==> i < r.next <= |s|
    decreases |s| - i, 0
  {
    if At(s, i, "null") then Ok(Null, i + 4)
    else if At(s, i, "false") then Ok(False, i + 5)
    else if At(s, i, "true") then Ok(True, i + 4)
    else if i == |s| then Fail
    else if s[i] == '\"' then
      match StringAt(s, i) case Fail => Fail case Ok(t, k) => Ok(String(t), k)
    else if s[i] == '-' || '0' <= s[i] <= '9' then NumberAt(lib, s, i)
    else if s[i] == '[' && d < NESTING_LIMIT then
      var j := Skip(s, i + 1);
      if j < |s| && s[j] == ']' then Ok(Array([]), j + 1)
      else match Elements(lib, s, j, d + 1) case Fail => Fail case Ok(items, k) => Ok(Array(items), k)
    else if s[i] == '{' && d < NESTING_LIMIT then
      var j := Skip(s, i + 1);
      if j < |s| && s[j] == '}' then Ok(Object([]), j + 1)
      else match Fields(lib, s, j, d + 1) case Fail => Fail case Ok(ms, k) => Ok(Object(ms), k)
    else Fail
  }

  /** The elements from `i` to the closing bracket. */
  function Elements(lib: Numbers, s: string, i: nat, d: nat): (r: Parsed<seq<Json>>)
    requires i <= |s| && Sane(lib)
    ensures r.Ok? ==> i < r.next <= |s|
    decreases |s| - i, 1
  {
    match Value(lib, s, Skip(s, i), d)
    case Fail => Fail
    case Ok(v, k) =>
      var m := Skip(s, k);
      if m < |s| && s[m] == ',' then
        match Elements(lib, s, m + 1, d) case Fail => Fail case Ok(vs, n) => Ok([v] + vs, n)
      else if m < |s| && s[m] == ']' then Ok([v], m + 1)
      else Fail
  }

  /** The value after a member name, with the position behind the whitespace that follows it. */
  function Field(lib: Numbers, s: string, i: nat, d: nat): (r: Parsed<Member>)
    requires i <= |s| && Sane(lib)
    ensures r.Ok? ==> i < r.next <= |s|
    decreases |s| - i, 1
  {
    if i == |s| then Fail
    else
      match StringAt(s, Skip(s, i))
      case Fail => Fail
      case Ok(name, k) =>
        var c := Skip(s, k);
        if c == |s| || s[c] != ':' then Fail
        else match Value(lib, s, Skip(s, c + 1), d) case Fail => Fail case Ok(v, n) => Ok(Member(name, v), Skip(s, n))
  }

  /** The members from `i` to the closing brace. */
  function Fields(lib: Numbers, s: string, i: nat, d: nat): (r: Parsed<seq<Member>>)
    requires i <= |s| && Sane(lib)
    ensures r.Ok? ==> i < r.next <= |s|
    decreases |s| - i, 2
  {
    match Field(lib, s, i, d)
    case Fail => Fail
    case Ok(v, m) =>
      if m < |s| && s[m] == ',' then
        match Fields(lib, s, m + 1, d) case Fail => Fail case Ok(vs, n) => Ok([v] + vs, n)
      else if m < |s| && s[m] == '}' then Ok([v], m + 1)
      else Fail
  }

  /** cJSON_ParseWithOpts on the C string `s`, with its terminator as last byte of the buffer. */
  function Parse(lib: Numbers, s: string, whole: bool): Option<Json>
    requires Sane(lib)
  {
    var t := s + [NUL];
    var start := if |t| > 4 && At(t, 0, "\U{EF}\U{BB}\U{BF}") then 3 else 0;
    match Value(lib, t, Skip(t, start), 0)
    case Fail => None
    case Ok(v, k) => if whole && (k == |t| || t[Skip(t, k)] != NUL) then None else Some(v)
  }

  // ---- Room for the decoded string ----

  /** Escapes that the scan for the closing quote counts from `p` to `e`. */
  /** A byte order mark is skipped; what follows the value is refused exactly if the whole text is asked for. */
  lemma MarkSkipped(lib: Numbers, whole: bool)
    requires Sane(lib)
    ensures Parse(lib, "\U{EF}\U{BB}\U{BF}null", whole) == Some(Null)
    ensures Parse(lib, "null,", whole) == if whole then None else Some(Null)
  {
    var t, u := "\U{EF}\U{BB}\U{BF}null" + [NUL], "null," + [NUL];
    assert t[0..3] == "\U{EF}\U{BB}\U{BF}" && t[3..7] == "null" && u[0..4] == "null";
    assert Skip(t, 3) == 3 && Skip(u, 0) == 0 && Skip(u, 4) == 4 && Skip(t, 7) == 7;
  }

  function Escapes(s: string, p: nat, e: nat): nat
    requires e <= |s|
    decreases e - p
  {
    if p >= e then 0 else if s[p] == '\\' then 1 + Escapes(s, p + 2, e) else Escapes(s, p + 1, e)
  }

  /** Starting one byte later loses at most one escape, and never gains one: it does not matter that
      the decoder may leave the alignment of the scan behind a malformed `\u`. */
  lemma {:induction false} EscapesShift(s: string, p: nat, e: nat)
    requires e <= |s|
    ensures Escapes(s, p + 1, e) <= Escapes(s, p, e) <= Escapes(s, p + 1, e) + 1
    decreases e - p
  {
    if p < e { EscapesShift(s, p + 1, e); }
  }

  lemma {:induction false} EscapesAhead(s: string, p: nat, e: nat, n: nat)
    requires e <= |s|
    ensures Escapes(s, p + n, e) <= Escapes(s, p, e) <= Escapes(s, p + n, e) + n
    decreases n
  {
    if n > 0 {
      EscapesAhead(s, p + 1, e, n - 1);
      EscapesShift(s, p, e);
    }
  }

  lemma {:induction false} NoEscapes(s: string, p: nat, e: nat, n: nat)
    requires p + n <= e <= |s| && forall i :: p <= i < p + n ==> s[i] != '\\'
    ensures Escapes(s, p, e) == Escapes(s, p + n, e)
    decreases n
  {
    if n > 0 { NoEscapes(s, p + 1, e, n - 1); }
  }

  lemma {:induction false} Halves(s: string, p: nat, e: nat)
    requires p <= e <= |s|
    ensures Escapes(s, p, e) <= e - p
    decreases e - p
  {
    if p < e {
      Halves(s, p + 1, e);
      EscapesShift(s, p, e);
    }
  }

  /** Bytes that decoding from `p` may still produce. */
  function Room(s: string, p: nat, e: nat): (n: nat)
    requires e <= |s|
    ensures p <= e ==> n > 0
  {
    if p <= e then Halves(s, p, e); e - p - Escapes(s, p, e) + 1 else 0
  }

  /** Every unit takes no more room than it gives up, whatever the input. */
  lemma UnitFits(s: string, p: nat, e: nat)
    requires p < e < |s|
    ensures var u := Unit(s, p, e); u.Esc? ==> p + u.len <= e + 1 && |u.out| + Room(s, p + u.len, e) <= Room(s, p, e)
  {
    var u := Unit(s, p, e);
    if s[p] == '\\' && s[p + 1] == 'u' && u.Esc? {
      EscapesAhead(s, p + 2, e, 4);
      var first := HexValue(s[p + 2..p + 6]);
      if first != 0 { NoHexEscape(s, p + 2, e); }
      if u.len == 12 { NoHexEscape(s, p + 8, e); }
    }
  }

  lemma NoHexEscape(s: string, p: nat, e: nat)
    requires p + 4 <= e <= |s| && HexValue(s[p..p + 4]) != 0
    ensures Escapes(s, p, e) == Escapes(s, p + 4, e)
  {
    var t := s[p..p + 4];
    forall i | p <= i < p + 4 ensures s[i] != '\\' { assert HexDigit(t[i - p]) >= 0; }
    NoEscapes(s, p, e, 4);
  }

  lemma Rejoin(a: string, b: string, o: Option<string>)
    ensures Prepend(a, Prepend(b, o)) == Prepend(a + b, o) && Prepend("", o) == o
  {
    if o.Some? { assert a + (b + o.value) == a + b + o.value && "" + o.value == o.value; }
  }

  lemma NotWord(s: string, i: nat, t: string)
    requires i < |s| && t != "" && s[i] != t[0]
    ensures !At(s, i, t)
  {
    assert i + |t| <= |s| ==> s[i..i + |t|][0] == s[i];
  }

  lemma Words(s: string, i: nat)
    requires i < |s| && s[i] != 'n' && s[i] != 'f' && s[i] != 't'
    ensures !At(s, i, "null") && !At(s, i, "false") && !At(s, i, "true")
  {
    NotWord(s, i, "null");
    NotWord(s, i, "false");
    NotWord(s, i, "true");
  }

  /** `r` with the values `a` in front. */
  function Joined<T>(a: seq<T>, r: Parsed<seq<T>>): Parsed<seq<T>> {
    if r.Fail? then Fail else Ok(a + r.value, r.next)
  }

  lemma JoinedNone<T>(r: Parsed<seq<T>>)
    ensures Joined([], r) == r
  {
    if r.Ok? { assert [] + r.value == r.value; }
  }

  lemma JoinedOne<T>(a: seq<T>, x: T, r: Parsed<seq<T>>)
    ensures Joined(a, Joined([x], r)) == Joined(a + [x], r)
  {
    if r.Ok? { assert a + ([x] + r.value) == a + [x] + r.value; }
  }

  // ---- The parser ----

  class Parser {
    const lib: Numbers
    const content: string
    var offset: nat
    var depth: nat

    constructor (numbers: Numbers, bytes: string)
      ensures lib == numbers && content == bytes && offset == 0 && depth == 0
    {
      lib, content, offset, depth := numbers, bytes, 0, 0;
    }

    /** buffer_skip_whitespace. */
    method SkipWhitespace()
      requires offset <= |content|
      modifies `offset
      ensures offset == Skip(content, old(offset))
    {
      if offset >= |content| { return; }
      while offset < |content| && content[offset] <= ' '
        invariant old(offset) <= offset <= |content| && Blank(content, offset) == Blank(content, old(offset))
      {
        offset := offset + 1;
      }
      if offset == |content| { offset := offset - 1; }
    }

    /** parse_hex4. */
    method ParseHex4(p: nat) returns (h: nat)
      requires p + 4 <= |content|
      ensures h == HexValue(content[p..p + 4])
    {
      hide HexValue, HexDigit;
      ghost var t := content[p..p + 4];
      h := 0;
      NoHex(t[..0]);
      for i := 0 to 4
        invariant forall k :: 0 <= k < i ==> HexDigit(t[k]) >= 0
        invariant h == HexValue(t[..i])
      {
        var c := content[p + i];
        var d := HexDigit(c);
        if d < 0 {
          return 0;
        }
        MoreHex(t, i);
        h := h * 16 + d;
      }
      assert t[..4] == t;
    }

    /** The encoding loop of utf16_literal_to_utf8: last byte first. */
    method EncodeUtf8(codepoint: nat, out: array<char>, n: nat) returns (len: nat)
      requires codepoint <= 0x10FFFF && n + Utf8Length(codepoint) <= out.Length
      modifies out
      ensures len == |Utf8(codepoint)| && out[..n + len] == old(out[..n]) + Utf8(codepoint)
    {
      len := Utf8Length(codepoint);
      var cp, pos := codepoint, len - 1;
      LeadFits(codepoint);
      ghost var whole, rest := Continuation(codepoint, len - 1), "";
      while pos > 0
        invariant 0 <= pos <= len - 1 && out[..n] == old(out[..n]) && out[n + pos + 1..n + len] == rest
        invariant Shifted(cp, pos) == Shifted(codepoint, len - 1)
        invariant Continuation(cp, pos) + rest == whole
      {
        ghost var b := (0x80 + cp % 64) as char;
        out[n + pos] := (0x80 + cp % 64) as char;
        assert out[n + pos..n + len] == [b] + rest;
        assert Continuation(cp / 64, pos - 1) + [b] + rest == Continuation(cp / 64, pos - 1) + ([b] + rest);
        rest := [b] + rest;
        cp := cp / 64;
        pos := pos - 1;
      }
      out[n] := (Mark(len) + cp) as char;
      assert out[..n + len] == out[..n] + [out[n]] + out[n + 1..n + len];
    }

    /** The scan of parse_string for the closing quote, with the number of bytes it will allocate. */
    method FindEnd() returns (ok: bool, end: nat, room: nat)
      requires offset < |content|
      ensures ok <==> StringEnd(content, offset + 1) < |content|
      ensures ok ==> end == StringEnd(content, offset + 1) && room == Room(content, offset + 1, end)
    {
      ghost var goal := StringEnd(content, offset + 1);
      var skipped := 0;
      end := offset + 1;
      while end < |content| && content[end] != '\"'
        invariant offset < end <= |content| && StringEnd(content, end) == goal
        invariant end <= goal && skipped + Escapes(content, end, goal) == Escapes(content, offset + 1, goal)
        decreases |content| - end
      {
        if content[end] == '\\' {
          if end + 1 >= |content| { return false, end, 0; }
          skipped := skipped + 1;
          end := end + 1;
        }
        end := end + 1;
      }
      if end >= |content| { return false, end, 0; }
      Halves(content, offset + 1, end);
      return true, end, end - offset - skipped;
    }

    /** One escape sequence: the bytes it stands for go to `out[n..]`. */
    method DecodeEscape(p: nat, e: nat, out: array<char>, n: nat) returns (len: nat, m: nat)
      requires p < e < |content| && content[p] == '\\' && n + Room(content, p, e) <= out.Length
      modifies out
      ensures match Unit(content, p, e)
              case Bad => len == 0
              case Esc(t, k) => len == k && m == n + |t| <= out.Length && out[..m] == old(out[..n]) + t
    {
      UnitFits(content, p, e);
      ghost var before := out[..n];
      var c := content[p + 1];
      len, m := 2, n;
      if c == 'u' {
        len, m := Utf16Literal(p, e, out, n);
        return;
      }
      if c == 'b' { c := '\U{8}'; }
      else if c == 'f' { c := '\U{C}'; }
      else if c == 'n' { c := '\n'; }
      else if c == 'r' { c := '\r'; }
      else if c == 't' { c := '\t'; }
      else if c != '\"' && c != '\\' && c != '/' { return 0, n; }
      out[n] := c;
      m := n + 1;
      assert out[..m] == before + [c];
    }

    /** utf16_literal_to_utf8. */
    method Utf16Literal(p: nat, e: nat, out: array<char>, n: nat) returns (len: nat, m: nat)
      requires p <= e <= |content|
      requires var u := Utf16(content, p, e); u.Esc? ==> n + |u.out| <= out.Length
      modifies out
      ensures match Utf16(content, p, e)
              case Bad => len == 0
              case Esc(t, k) => len == k && m == n + |t| <= out.Length && out[..m] == old(out[..n]) + t
    {
      m := n;
      if e - p < 6 { return 0, n; }
      var first := ParseHex4(p + 2);
      var codepoint := first;
      if 0xDC00 <= first <= 0xDFFF { return 0, n; }
      len := 6;
      if 0xD800 <= first <= 0xDBFF {
        len := 12;
        if e - p < 12 { return 0, n; }
        if content[p + 6] != '\\' || content[p + 7] != 'u' { return 0, n; }
        var second := ParseHex4(p + 8);
        if second < 0xDC00 || second > 0xDFFF { return 0, n; }
        codepoint := 0x10000 + first % 0x400 * 0x400 + second % 0x400;
      }
      if codepoint > 0x10FFFF { return 0, n; }
      var k := EncodeUtf8(codepoint, out, n);
      m := n + k;
    }

    /** parse_string: the decoded bytes go into a buffer allocated before decoding. */
    method ParseString() returns (r: Option<string>)
      requires offset < |content|
      modifies `offset
      ensures match StringAt(content, old(offset)) case Fail => r == None case Ok(t, k) => r == Some(t) && offset == k
    {
      if content[offset] != '\"' { return None; }
      var ok, end, room := FindEnd();
      if !ok { return None; }
      var out := new char[room + 1](_ => NUL);
      var n: nat;
      ok, n := Decode(offset + 1, end, out);
      if !ok { return None; }
      out[n] := NUL;
      r := Some(CString(out[..n]));
      offset := end + 1;
    }

    /** The decoding loop of parse_string; the last byte of `out` is left for the terminator. */
    method Decode(start: nat, e: nat, out: array<char>) returns (ok: bool, n: nat)
      requires start <= e < |content| && out.Length == Room(content, start, e) + 1
      modifies out
      ensures match Unescape(content, start, e)
              case None => !ok
              case Some(t) => ok && n < out.Length && out[..n] == t
    {
      hide Unit, Escapes;
      var p := start;
      n := 0;
      Rejoin("", "", Unescape(content, p, e));
      while p < e
        invariant start <= p <= e + 1 && 0 <= n && n + Room(content, p, e) < out.Length
        invariant Unescape(content, start, e) == Prepend(out[..n], Unescape(content, p, e))
        decreases e - p
      {
        UnitFits(content, p, e);
        ghost var done, u := out[..n], Unit(content, p, e);
        if content[p] != '\\' {
          PlainUnit(content, p, e);
          out[n] := content[p];
          n, p := n + 1, p + 1;
        } else {
          var len, m := DecodeEscape(p, e, out, n);
          if len == 0 { return false, 0; }
          n, p := m, p + len;
        }
        assert out[..n] == done + u.out;
        Rejoin(done, u.out, Unescape(content, p, e));
      }
      assert out[..n] + "" == out[..n];
      return true, n;
    }

    /** parse_number. */
    method ParseNumber() returns (r: Option<Json>)
      requires offset <= |content| && Sane(lib)
      modifies `offset
      ensures match NumberAt(lib, content, old(offset))
              case Fail => r == None
              case Ok(v, k) => r == Some(v) && offset == k
    {
      var i := offset;
      while i < |content| && NumberByte(content[i])
        invariant offset <= i <= |content| && NumberEnd(content, i) == NumberEnd(content, offset)
      {
        i := i + 1;
      }
      var scan := lib.strtod(content[offset..i]);
      if scan.used == 0 { return None; }
      var whole := INT_MAX;
      if scan.value < INT_MAX as real {
        whole := INT_MIN;
        if scan.value > INT_MIN as real {
          whole := if scan.value >= 0.0 then scan.value.Floor else -((-scan.value).Floor);
        }
      }
      offset := offset + scan.used;
      return Some(Number(scan.value, whole));
    }

    /** parse_value. */
    method ParseValue() returns (r: Option<Json>)
      requires offset <= |content| && Sane(lib)
      modifies this
      ensures match Value(lib, content, old(offset), old(depth))
              case Fail => r == None
              case Ok(v, k) => r == Some(v) && offset == k && depth == old(depth)
      decreases |content| - offset, 1
    {
      if offset + 4 <= |content| && content[offset..offset + 4] == "null" {
        offset := offset + 4;
        return Some(Null);
      }
      if offset + 5 <= |content| && content[offset..offset + 5] == "false" {
        offset := offset + 5;
        return Some(False);
      }
      if offset + 4 <= |content| && content[offset..offset + 4] == "true" {
        offset := offset + 4;
        return Some(True);
      }
      if offset < |content| && content[offset] == '\"' {
        var t := ParseString();
        return if t.None? then None else Some(String(t.value));
      }
      if offset < |content| && (content[offset] == '-' || '0' <= content[offset] <= '9') {
        r := ParseNumber();
        return;
      }
      if offset < |content| && content[offset] == '[' {
        r := ParseArray();
        return;
      }
      if offset < |content| && content[offset] == '{' {
        r := ParseObject();
        return;
      }
      return None;
    }

    /** parse_array. */
    method ParseArray() returns (r: Option<Json>)
      requires offset < |content| && content[offset] == '[' && Sane(lib)
      modifies this
      ensures match Value(lib, content, old(offset), old(depth))
              case Fail => r == None
              case Ok(v, k) => r == Some(v) && offset == k && depth == old(depth)
      decreases |content| - offset, 0
    {
      Words(content, offset);
      if depth >= NESTING_LIMIT { return None; }
      depth := depth + 1;
      offset := offset + 1;
      SkipWhitespace();
      if offset < |content| && content[offset] == ']' {
        depth := depth - 1;
        offset := offset + 1;
        return Some(Array([]));
      }
      if offset >= |content| { return None; }
      var items := ParseElements();
      if items.None? { return None; }
      if content[offset] != ']' { return None; }
      depth := depth - 1;
      offset := offset + 1;
      return Some(Array(items.value));
    }

    /** The loop of parse_array; it ends on the byte after the last element. */
    method ParseElements() returns (r: Option<seq<Json>>)
      requires offset < |content| && Sane(lib) && depth > 0
      modifies this
      ensures r.Some? ==> offset < |content| && depth == old(depth)
      ensures match Elements(lib, content, old(offset), old(depth))
              case Fail => r == None || content[offset] != ']'
              case Ok(vs, k) => r == Some(vs) && content[offset] == ']' && k == offset + 1
      decreases |content| - offset, 2
    {
      hide Skip, Value;
      var items: seq<Json> := [];
      JoinedNone(Elements(lib, content, offset, depth));
      while true
        invariant old(offset) <= offset <= |content| && depth == old(depth)
        invariant Joined(items, Elements(lib, content, offset, depth)) == Elements(lib, content, old(offset), depth)
        decreases |content| - offset
      {
        ghost var done, from := items, offset;
        SkipWhitespace();
        var v := ParseValue();
        if v.None? { return None; }
        items := items + [v.value];
        SkipWhitespace();
        if offset >= |content| { return None; }
        if content[offset] != ',' { return Some(items); }
        offset := offset + 1;
        JoinedOne(done, v.value, Elements(lib, content, offset, depth));
      }
    }

    /** parse_object. */
    method ParseObject() returns (r: Option<Json>)
      requires offset < |content| && content[offset] == '{' && Sane(lib)
      modifies this
      ensures match Value(lib, content, old(offset), old(depth))
              case Fail => r == None
              case Ok(v, k) => r == Some(v) && offset == k && depth == old(depth)
      decreases |content| - offset, 0
    {
      Words(content, offset);
      if depth >= NESTING_LIMIT { return None; }
      depth := depth + 1;
      offset := offset + 1;
      SkipWhitespace();
      if offset < |content| && content[offset] == '}' {
        depth := depth - 1;
        offset := offset + 1;
        return Some(Object([]));
      }
      if offset >= |content| { return None; }
      var members := ParseMembers();
      if members.None? { return None; }
      if content[offset] != '}' { return None; }
      depth := depth - 1;
      offset := offset + 1;
      return Some(Object(members.value));
    }

    /** One member: name, colon, value and the whitespace after it. */
    method ParseMember() returns (r: Option<Member>)
      requires offset <= |content| && Sane(lib)
      modifies this
      ensures match Field(lib, content, old(offset), old(depth))
              case Fail => r == None
              case Ok(m, k) => r == Some(m) && offset == k && depth == old(depth)
      decreases |content| - offset, 2
    {
      hide Skip, StringAt, Value;
      if offset >= |content| { return None; }
      SkipWhitespace();
      var name := ParseString();
      if name.None? { return None; }
      SkipWhitespace();
      if offset >= |content| || content[offset] != ':' { return None; }
      offset := offset + 1;
      SkipWhitespace();
      var v := ParseValue();
      if v.None? { return None; }
      SkipWhitespace();
      return Some(Member(name.value, v.value));
    }

    /** The loop of parse_object; it ends on the byte after the last member. */
    method ParseMembers() returns (r: Option<seq<Member>>)
      requires offset < |content| && Sane(lib) && depth > 0
      modifies this
      ensures r.Some? ==> offset < |content| && depth == old(depth)
      ensures match Fields(lib, content, old(offset), old(depth))
              case Fail => r == None || content[offset] != '}'
              case Ok(ms, k) => r == Some(ms) && content[offset] == '}' && k == offset + 1
      decreases |content| - offset, 3
    {
      hide Field;
      var members: seq<Member> := [];
      JoinedNone(Fields(lib, content, offset, depth));
      while true
        invariant old(offset) <= offset <= |content| && depth == old(depth)
        invariant Joined(members, Fields(lib, content, offset, depth)) == Fields(lib, content, old(offset), depth)
        decreases |content| - offset
      {
        ghost var done := members;
        var m := ParseMember();
        if m.None? { return None; }
        members := members + [m.value];
        if offset >= |content| { return None; }
        if content[offset] != ',' { return Some(members); }
        offset := offset + 1;
        JoinedOne(done, m.value, Fields(lib, content, offset, depth));
      }
    }

    /** cJSON_ParseWithLengthOpts on a fresh parser. */
    method ParseText(whole: bool) returns (r: Option<Json>)
      requires offset == 0 && depth == 0 && Sane(lib) && content != "" && content[|content| - 1] == NUL
      modifies this
      ensures r == Parse(lib, content[..|content| - 1], whole)
    {
      assert content == content[..|content| - 1] + [NUL];
      if 4 < |content| && content[..3] == "\U{EF}\U{BB}\U{BF}" { offset := 3; }
      SkipWhitespace();
      r := ParseValue();
      if r.None? { return None; }
      if whole {
        SkipWhitespace();
        if offset >= |content| || content[offset] != NUL { return None; }
      }
    }
  }
}
