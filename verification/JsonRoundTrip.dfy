/** Printed text parses back to the tree it was printed from. */
module JsonRoundTrip {
  import opened Json
  import opened JsonParser
  import opened Options

  /** All numbers are ints. */
  predicate Integral(v: Json) {
    match v
    case Number(x, n) => x == n as real && INT_MIN <= n <= INT_MAX
    case Array(items) => forall i :: 0 <= i < |items| ==> Integral(items[i])
    case Object(ms) => forall i :: 0 <= i < |ms| ==> Integral(ms[i].value)
    case _ => true
  }

  /** `strtod` reads back what `%d` prints. */
  ghost predicate ReadsInts(lib: Numbers) {
    Sane(lib) && forall n :: INT_MIN <= n <= INT_MAX ==> lib.strtod(Decimal(n)) == Scan(n as real, |Decimal(n)|)
  }

  // ---- Text at a position ----

  lemma AtSplit(s: string, i: nat, a: string, b: string)
    requires At(s, i, a + b)
    ensures i + |a| + |b| <= |s| && At(s, i, a) && At(s, i + |a|, b)
  {
    assert s[i..i + |a|] == (a + b)[..|a|];
    assert s[i + |a|..i + |a| + |b|] == (a + b)[|a|..];
  }

  lemma AtJoin(s: string, i: nat, a: string, b: string)
    requires At(s, i, a) && At(s, i + |a|, b)
    ensures At(s, i, a + b)
  {
    assert s[i..i + |a| + |b|] == s[i..i + |a|] + s[i + |a|..i + |a| + |b|];
  }

  lemma AtParts(s: string, i: nat, a: string, b: string, c: string, d: string)
    requires At(s, i, a + b + c + d)
    ensures At(s, i, a) && At(s, i + |a|, b) && At(s, i + |a| + |b|, c + d)
  {
    hide At;
    AtSplit(s, i, a + b + c, d);
    AtSplit(s, i, a + b, c);
    AtSplit(s, i, a, b);
    AtJoin(s, i + |a| + |b|, c, d);
  }

  lemma Byte(s: string, i: nat, t: string, k: nat)
    requires At(s, i, t) && k < |t|
    ensures i + |t| <= |s| && s[i + k] == t[k]
  {
    assert s[i..i + |t|][k] == t[k];
  }

  lemma {:induction false} Blanks(s: string, i: nat, w: string)
    requires At(s, i, w) && (forall k :: 0 <= k < |w| ==> w[k] <= ' ') && i + |w| < |s| && s[i + |w|] > ' '
    ensures Skip(s, i) == i + |w|
    decreases |w|
  {
    if w != "" {
      Byte(s, i, w, 0);
      AtSplit(s, i, w[..1], w[1..]) by { assert w == w[..1] + w[1..]; }
      Blanks(s, i + 1, w[1..]);
    }
  }

  lemma Stays(s: string, i: nat)
    requires i < |s| && s[i] > ' '
    ensures Skip(s, i) == i
  {
  }

  // ---- Numbers ----

  lemma {:induction false} NumberEnds(s: string, i: nat, t: string)
    requires At(s, i, t) && (forall k :: 0 <= k < |t| ==> NumberByte(t[k])) && i + |t| < |s| && !NumberByte(s[i + |t|])
    ensures NumberEnd(s, i) == i + |t|
    decreases |t|
  {
    if t != "" {
      Byte(s, i, t, 0);
      AtSplit(s, i, t[..1], t[1..]) by { assert t == t[..1] + t[1..]; }
      NumberEnds(s, i + 1, t[1..]);
    }
  }

  lemma NumberReads(lib: Numbers, s: string, i: nat, n: int, d: nat)
    requires ReadsInts(lib) && INT_MIN <= n <= INT_MAX
    requires var t := Decimal(n); At(s, i, t) && i + |t| < |s| && !NumberByte(s[i + |t|])
    ensures Value(lib, s, i, d) == Ok(Number(n as real, n), i + |Decimal(n)|)
  {
    hide Value, NumberEnd, Digits;
    var t := Decimal(n);
    Byte(s, i, t, 0);
    NumberEnds(s, i, t);
    NumberValue(lib, s, i, d);
  }

  lemma NumberValue(lib: Numbers, s: string, i: nat, d: nat)
    requires Sane(lib) && i < |s| && (s[i] == '-' || '0' <= s[i] <= '9')
    ensures Value(lib, s, i, d) == NumberAt(lib, s, i)
  {
    hide At, NumberAt;
    Words(s, i);
  }

  // ---- Strings ----

  lemma HexOfByte(c: nat)
    requires c < 32
    ensures HexValue("00" + [Digit(c / 16), Digit(c % 16)]) == c
  {
    var t := "00" + [Digit(c / 16), Digit(c % 16)];
    assert t[..3] == "00" + [Digit(c / 16)] && t[..3][..2] == "00" && "00"[..1] == "0" && "0"[..0] == "";
    assert HexDigit(Digit(c / 16)) == c / 16 && HexDigit(Digit(c % 16)) == c % 16;
    assert HexValue("") == 0;
    assert HexValue("0") == 0;
    assert HexValue("00") == 0;
    assert HexValue(t[..3]) == c / 16;
  }

  /** One printed byte reads back. */
  lemma UnitReads(s: string, p: nat, e: nat, c: char)
    requires At(s, p, Escaped(c)) && p + |Escaped(c)| <= e < |s|
    ensures Unit(s, p, e) == Esc([c], |Escaped(c)|)
  {
    var t := Escaped(c);
    Byte(s, p, t, 0);
    if |t| > 1 { Byte(s, p, t, 1); }
    if |t| > 2 {
      HexOfByte(c as nat);
      AtSplit(s, p, t[..2], t[2..]) by { assert t == t[..2] + t[2..]; }
      assert t[2..] == "00" + [Digit(c as nat / 16), Digit(c as nat % 16)];
      assert s[p + 2..p + 6] == t[2..];
      assert Utf8(c as nat) == [c];
    }
  }

  lemma PlainByte(c: char)
    ensures forall k :: 2 <= k < |Escaped(c)| ==> Escaped(c)[k] != '\"' && Escaped(c)[k] != '\\'
    ensures |Escaped(c)| == 1 ==> Escaped(c)[0] != '\"' && Escaped(c)[0] != '\\'
    ensures |Escaped(c)| > 1 ==> Escaped(c)[0] == '\\'
    ensures |Escaped(c)| in {1, 2, 6}
  {
  }

  /** The scan for the closing quote passes over one printed byte. */
  lemma EndPasses(s: string, p: nat, c: char)
    requires At(s, p, Escaped(c))
    ensures StringEnd(s, p) == StringEnd(s, p + |Escaped(c)|)
  {
    hide Escaped;
    var t := Escaped(c);
    PlainByte(c);
    Byte(s, p, t, 0);
    if |t| == 6 {
      Byte(s, p, t, 2);
      Byte(s, p, t, 3);
      Byte(s, p, t, 4);
      Byte(s, p, t, 5);
      assert StringEnd(s, p) == StringEnd(s, p + 2) == StringEnd(s, p + 3) == StringEnd(s, p + 4);
      assert StringEnd(s, p + 4) == StringEnd(s, p + 5) == StringEnd(s, p + 6);
    }
  }

  lemma {:induction false} EscapedReads(s: string, p: nat, t: string, e: nat)
    requires At(s, p, EscapedAll(t)) && e == p + |EscapedAll(t)| < |s| && s[e] == '\"'
    ensures StringEnd(s, p) == e && Unescape(s, p, e) == Some(t)
    decreases |t|
  {
    hide At, Escaped, Unit;
    if t != "" {
      AtSplit(s, p, Escaped(t[0]), EscapedAll(t[1..]));
      EndPasses(s, p, t[0]);
      UnitReads(s, p, e, t[0]);
      EscapedReads(s, p + |Escaped(t[0])|, t[1..], e);
      assert t == [t[0]] + t[1..];
    }
  }

  lemma StringReads(s: string, i: nat, t: string)
    requires At(s, i, Quoted(t)) && NUL !in t
    ensures i < |s| && s[i] == '\"' && StringAt(s, i) == Ok(t, i + |Quoted(t)|)
  {
    hide At, EscapedAll;
    AtSplit(s, i, "\"" + EscapedAll(t), "\"");
    AtSplit(s, i, "\"", EscapedAll(t));
    Byte(s, i, "\"", 0);
    Byte(s, i + 1 + |EscapedAll(t)|, "\"", 0);
    EscapedReads(s, i + 1, t, i + 1 + |EscapedAll(t)|);
  }

  lemma QuoteAt(s: string, i: nat, t: string)
    requires At(s, i, Quoted(t))
    ensures i < |s| && s[i] == '\"'
  {
    Byte(s, i, Quoted(t), 0);
  }

  // ---- One step of the parser ----

  lemma StringValue(lib: Numbers, s: string, i: nat, d: nat, t: string, k: nat)
    requires Sane(lib) && i < |s| && s[i] == '\"' && StringAt(s, i) == Ok(t, k)
    ensures Value(lib, s, i, d) == Ok(String(t), k)
  {
    hide At, StringAt;
    Words(s, i);
  }

  lemma ArrayValue(lib: Numbers, s: string, i: nat, d: nat, items: seq<Json>, k: nat)
    requires Sane(lib) && i < |s| && s[i] == '[' && d < NESTING_LIMIT && Skip(s, i + 1) < |s|
    requires var j := Skip(s, i + 1);
             if items == [] then s[j] == ']' && k == j + 1
             else s[j] != ']' && Elements(lib, s, j, d + 1) == Ok(items, k)
    ensures Value(lib, s, i, d) == Ok(Array(items), k)
  {
    hide At, Skip, Elements;
    Words(s, i);
  }

  lemma ObjectValue(lib: Numbers, s: string, i: nat, d: nat, ms: seq<Member>, k: nat)
    requires Sane(lib) && i < |s| && s[i] == '{' && d < NESTING_LIMIT && Skip(s, i + 1) < |s|
    requires var j := Skip(s, i + 1);
             if ms == [] then s[j] == '}' && k == j + 1 else s[j] != '}' && Fields(lib, s, j, d + 1) == Ok(ms, k)
    ensures Value(lib, s, i, d) == Ok(Object(ms), k)
  {
    hide At, Skip, Fields;
    Words(s, i);
  }

  lemma ElementsStep(lib: Numbers, s: string, i: nat, d: nat, v: Json, k: nat, vs: seq<Json>, n: nat)
    requires Sane(lib) && i <= |s| && Value(lib, s, Skip(s, i), d) == Ok(v, k) && k < |s| && Skip(s, k) == k
    requires if vs == [] then s[k] == ']' && n == k + 1 else s[k] == ',' && Elements(lib, s, k + 1, d) == Ok(vs, n)
    ensures Elements(lib, s, i, d) == Ok([v] + vs, n)
  {
    hide Skip, Value;
    if vs == [] { assert [v] + vs == [v]; }
  }

  lemma FieldStep(lib: Numbers, s: string, i: nat, d: nat, name: string, k: nat, v: Json, n: nat)
    requires Sane(lib) && i < |s| && StringAt(s, Skip(s, i)) == Ok(name, k) && k < |s| && Skip(s, k) == k && s[k] == ':'
    requires Value(lib, s, Skip(s, k + 1), d) == Ok(v, n)
    ensures Field(lib, s, i, d) == Ok(Member(name, v), Skip(s, n))
  {
    hide Skip, Value, StringAt;
  }

  lemma FieldsStep(lib: Numbers, s: string, i: nat, d: nat, m: Member, k: nat, ms: seq<Member>, n: nat)
    requires Sane(lib) && i <= |s| && Field(lib, s, i, d) == Ok(m, k) && k < |s|
    requires if ms == [] then s[k] == '}' && n == k + 1 else s[k] == ',' && Fields(lib, s, k + 1, d) == Ok(ms, n)
    ensures Fields(lib, s, i, d) == Ok([m] + ms, n)
  {
    hide Skip, Value, Field;
    if ms == [] { assert [m] + ms == [m]; }
  }

  // ---- Trees ----

  /** A byte that cannot continue a number follows at `k`. */
  predicate Follows(s: string, k: nat) {
    k < |s| && !NumberByte(s[k])
  }

  ghost predicate Good(lib: Numbers, v: Json, d: nat) {
    Integral(v) && Printable(lib, v, d) && Terminated(v)
  }

  ghost predicate GoodMember(lib: Numbers, m: Member, d: nat) {
    NUL !in m.name && Good(lib, m.value, d)
  }

  /** Printed values start with an ASCII byte, neither blank nor a closing bracket. */
  lemma FirstByte(lib: Numbers, v: Json, fmt: bool, d: nat)
    requires Integral(v)
    ensures var t := Text(lib, v, fmt, d); t != "" && ' ' < t[0] < '\U{EF}' && t[0] != ']' && t[0] != '}'
  {
    hide Items, Members;
  }

  lemma {:induction false} ValueReads(lib: Numbers, s: string, i: nat, v: Json, fmt: bool, d: nat)
    requires ReadsInts(lib) && Good(lib, v, d)
    requires var t := Text(lib, v, fmt, d); At(s, i, t) && Follows(s, i + |t|)
    ensures Value(lib, s, i, d) == Ok(v, i + |Text(lib, v, fmt, d)|)
    decreases v, 0
  {
    hide At, Value, Items, Members, Skip, StringAt, NumberAt, Quoted, Decimal, Good;
    match v
    case Null => WordReads(lib, s, i, v, fmt, d);
    case False => WordReads(lib, s, i, v, fmt, d);
    case True => WordReads(lib, s, i, v, fmt, d);
    case Number(_, n) => GoodNumber(lib, v, d); NumberReads(lib, s, i, n, d);
    case String(u) =>
      GoodString(lib, u, d);
      StringReads(s, i, u);
      StringValue(lib, s, i, d, u, i + |Quoted(u)|);
    case Array(items) => GoodItems(lib, items, d); ArrayReads(lib, s, i, items, fmt, d);
    case Object(ms) => GoodMembers(lib, ms, d); ObjectReads(lib, s, i, ms, fmt, d);
  }

  lemma WordReads(lib: Numbers, s: string, i: nat, v: Json, fmt: bool, d: nat)
    requires Sane(lib) && (v.Null? || v.False? || v.True?) && At(s, i, Text(lib, v, fmt, d))
    ensures Value(lib, s, i, d) == Ok(v, i + |Text(lib, v, fmt, d)|)
  {
    hide Elements, Fields, Skip, StringAt, NumberAt;
    match v
    case Null =>
    case False => Byte(s, i, "false", 0); NotWord(s, i, "null");
    case True => Byte(s, i, "true", 0); NotWord(s, i, "null"); NotWord(s, i, "false");
  }

  lemma GoodNumber(lib: Numbers, v: Json, d: nat)
    requires v.Number? && Good(lib, v, d)
    ensures v.value == v.whole as real && INT_MIN <= v.whole <= INT_MAX && NumberText(lib, v) == Decimal(v.whole)
  {
  }

  lemma GoodString(lib: Numbers, u: string, d: nat)
    requires Good(lib, String(u), d)
    ensures NUL !in u
  {
    assert Terminated(String(u));
  }

  lemma GoodItems(lib: Numbers, items: seq<Json>, d: nat)
    requires Good(lib, Array(items), d)
    ensures d < NESTING_LIMIT && forall k :: 0 <= k < |items| ==> Good(lib, items[k], d + 1)
  {
    assert Integral(Array(items)) && Printable(lib, Array(items), d) && Terminated(Array(items));
    assert AllPrintable(lib, items, d + 1);
  }

  lemma GoodMembers(lib: Numbers, ms: seq<Member>, d: nat)
    requires Good(lib, Object(ms), d)
    ensures d < NESTING_LIMIT && forall k :: 0 <= k < |ms| ==> GoodMember(lib, ms[k], d + 1)
  {
    assert Integral(Object(ms)) && Printable(lib, Object(ms), d) && Terminated(Object(ms));
  }

  lemma ArrayReads(lib: Numbers, s: string, i: nat, items: seq<Json>, fmt: bool, d: nat)
    requires ReadsInts(lib) && d < NESTING_LIMIT && forall k :: 0 <= k < |items| ==> Good(lib, items[k], d + 1)
    requires At(s, i, "[" + Items(lib, items, fmt, d + 1) + "]")
    ensures Value(lib, s, i, d) == Ok(Array(items), i + 2 + |Items(lib, items, fmt, d + 1)|)
    decreases items, 1
  {
    hide At, Skip, Value, Elements, Text, Printable, Integral;
    var t := Items(lib, items, fmt, d + 1);
    AtSplit(s, i, "[", t + "]") by { assert "[" + t + "]" == "[" + (t + "]"); }
    Byte(s, i, "[", 0);
    if items == [] {
      assert t + "]" == "]";
      Byte(s, i + 1, "]", 0);
      Stays(s, i + 1);
    } else {
      assert Good(lib, items[0], d + 1);
      FirstByte(lib, items[0], fmt, d + 1);
      assert (t + "]")[0] == Text(lib, items[0], fmt, d + 1)[0];
      Byte(s, i + 1, t + "]", 0);
      Stays(s, i + 1);
      ElementsRead(lib, s, i + 1, items, fmt, d + 1);
    }
    ArrayValue(lib, s, i, d, items, i + 2 + |t|);
  }

  lemma {:induction false} ElementsRead(lib: Numbers, s: string, i: nat, items: seq<Json>, fmt: bool, d: nat)
    requires ReadsInts(lib) && items != [] && forall k :: 0 <= k < |items| ==> Good(lib, items[k], d)
    requires i <= |s| && At(s, Skip(s, i), Items(lib, items, fmt, d) + "]")
    ensures Elements(lib, s, i, d) == Ok(items, Skip(s, i) + |Items(lib, items, fmt, d)| + 1)
    decreases items, 0
  {
    hide At, Skip, Value, Elements, Text, Items, Comma, Good;
    var v, rest := items[0], items[1..];
    var j := Skip(s, i);
    var k := j + |Text(lib, v, fmt, d)|;
    ItemsAt(lib, s, j, items, fmt, d);
    Stays(s, k);
    ValueReads(lib, s, j, v, fmt, d);
    assert items == [v] + rest;
    if rest != [] {
      AfterComma(lib, s, k, rest, fmt, d) by { assert rest[0] == items[1]; }
      forall n | 0 <= n < |rest| ensures Good(lib, rest[n], d) { assert rest[n] == items[n + 1]; }
      ElementsRead(lib, s, k + 1, rest, fmt, d);
    }
    ElementsStep(lib, s, i, d, v, k, rest, j + |Items(lib, items, fmt, d)| + 1);
  }

  /** Where the parts of a printed element list stand. */
  lemma ItemsAt(lib: Numbers, s: string, j: nat, items: seq<Json>, fmt: bool, d: nat)
    requires items != [] && At(s, j, Items(lib, items, fmt, d) + "]")
    ensures var t, rest := Text(lib, items[0], fmt, d), items[1..]; var k := j + |t|;
            && At(s, j, t) && k < |s| && !NumberByte(s[k]) && s[k] == (if rest == [] then ']' else ',')
            && if rest == [] then |Items(lib, items, fmt, d)| == |t|
               else var c := Comma(true, fmt);
                 && At(s, k, c) && At(s, k + |c|, Items(lib, rest, fmt, d) + "]")
                 && |Items(lib, items, fmt, d)| == |t| + |c| + |Items(lib, rest, fmt, d)|
  {
    hide At, Text, Comma, Items;
    var t, c, r := Text(lib, items[0], fmt, d), Comma(|items| > 1, fmt), Items(lib, items[1..], fmt, d);
    ItemsUnfold(lib, items, fmt, d);
    AtParts(s, j, t, c, r, "]");
    if |items| > 1 {
      Byte(s, j + |t|, c, 0);
    } else {
      Byte(s, j + |t|, r + "]", 0);
    }
  }

  lemma AfterComma(lib: Numbers, s: string, k: nat, rest: seq<Json>, fmt: bool, d: nat)
    requires rest != [] && Good(lib, rest[0], d)
    requires var c := Comma(true, fmt); At(s, k, c) && At(s, k + |c|, Items(lib, rest, fmt, d) + "]")
    ensures k + 1 <= |s| && Skip(s, k + 1) == k + |Comma(true, fmt)|
  {
    hide At, Skip, Text, Items, Printable, Integral;
    var c := Comma(true, fmt);
    FirstByte(lib, rest[0], fmt, d);
    var r := Items(lib, rest, fmt, d) + "]";
    ItemsUnfold(lib, rest, fmt, d);
    Byte(s, k + |c|, r, 0);
    AtSplit(s, k, ",", c[1..]) by { assert c == "," + c[1..]; }
    Blanks(s, k + 1, c[1..]);
  }

  lemma ObjectReads(lib: Numbers, s: string, i: nat, ms: seq<Member>, fmt: bool, d: nat)
    requires ReadsInts(lib) && d < NESTING_LIMIT && forall k :: 0 <= k < |ms| ==> GoodMember(lib, ms[k], d + 1)
    requires At(s, i, Text(lib, Object(ms), fmt, d))
    ensures Value(lib, s, i, d) == Ok(Object(ms), i + |Text(lib, Object(ms), fmt, d)|)
    decreases ms, 1
  {
    hide At, Skip, Value, Fields, Text, Members, Good, Close, Newline, Indent;
    var t := Members(lib, ms, fmt, d + 1) + Close(fmt, d);
    ObjectAt(lib, s, i, ms, fmt, d);
    if ms == [] {
      Closes(s, i + 1, fmt, d + 1);
    } else {
      AtSplit(s, i + 1, Newline(fmt), t);
      NameStarts(lib, s, i + 1, ms, fmt, d + 1);
      Stays(s, Skip(s, i + 1));
      FieldsRead(lib, s, Skip(s, i + 1), i + 1 + |Newline(fmt)|, ms, fmt, d + 1);
    }
    ObjectValue(lib, s, i, d, ms, i + |Text(lib, Object(ms), fmt, d)|);
  }

  /** Where the parts of a printed object stand. */
  lemma ObjectAt(lib: Numbers, s: string, i: nat, ms: seq<Member>, fmt: bool, d: nat)
    requires At(s, i, Text(lib, Object(ms), fmt, d))
    ensures var t := Members(lib, ms, fmt, d + 1) + Close(fmt, d);
            && i < |s| && s[i] == '{' && At(s, i + 1, Newline(fmt) + t)
            && |Text(lib, Object(ms), fmt, d)| == 1 + |Newline(fmt)| + |t|
            && (ms == [] ==> At(s, i + 1, Newline(fmt) + Close(fmt, d)) && |t| == |Close(fmt, d)|)
  {
    hide At;
    var nl, m, end := Newline(fmt), Members(lib, ms, fmt, d + 1), Close(fmt, d);
    AtSplit(s, i, "{" + nl + m, end);
    AtSplit(s, i, "{" + nl, m);
    AtSplit(s, i, "{", nl);
    Byte(s, i, "{", 0);
    AtJoin(s, i + 1 + |nl|, m, end);
    AtJoin(s, i + 1, nl, m + end);
    if ms == [] { AtJoin(s, i + 1, nl, end); }
  }

  lemma Closes(s: string, i: nat, fmt: bool, d: nat)
    requires d > 0 && At(s, i, Newline(fmt) + Close(fmt, d - 1))
    ensures i < |s| && !NumberByte(s[i])
    ensures var j := i + |Newline(fmt)| + |Close(fmt, d - 1)| - 1; Skip(s, i) == j && j < |s| && s[j] == '}'
  {
    hide At, Skip;
    var u := Newline(fmt) + Tabs(Indent(fmt, d - 1));
    assert Newline(fmt) + Close(fmt, d - 1) == u + "}";
    Byte(s, i, u + "}", 0);
    AtSplit(s, i, u, "}");
    Byte(s, i + |u|, "}", 0);
    Blanks(s, i, u);
  }

  /** Skipping a line break and the indentation leads to the first member name. */
  lemma NameStarts(lib: Numbers, s: string, i: nat, ms: seq<Member>, fmt: bool, d: nat)
    requires d > 0 && ms != [] && At(s, i, Newline(fmt) + (Members(lib, ms, fmt, d) + Close(fmt, d - 1)))
    ensures i < |s| && var j := i + |Newline(fmt)| + Indent(fmt, d); Skip(s, i) == j && j < |s| && s[j] == '\"'
  {
    hide At, Skip, Text, Close, Name, Quoted, Newline, Ending;
    var nl, n, m, rest := Newline(fmt), Indent(fmt, d), ms[0], Members(lib, ms[1..], fmt, d);
    var name, end := Name(m.name, fmt, d), Ending(|ms| > 1, fmt);
    var b := i + |nl|;
    NewlineBlank(fmt);
    AtSplit(s, i, nl, Members(lib, ms, fmt, d) + Close(fmt, d - 1));
    AtSplit(s, b, Members(lib, ms, fmt, d), Close(fmt, d - 1));
    AtSplit(s, b, name + Text(lib, m.value, fmt, d) + end, rest);
    AtSplit(s, b, name + Text(lib, m.value, fmt, d), end);
    AtSplit(s, b, name, Text(lib, m.value, fmt, d));
    NameAt(s, b, m.name, fmt, d);
    QuoteAt(s, b + n, m.name);
    AtJoin(s, i, nl, Tabs(n));
    Blanks(s, i, nl + Tabs(n));
  }

  lemma NewlineBlank(fmt: bool)
    ensures forall k :: 0 <= k < |Newline(fmt)| ==> Newline(fmt)[k] <= ' '
  {
  }

  lemma FieldReads(lib: Numbers, s: string, i: nat, base: nat, m: Member, fmt: bool, d: nat)
    requires ReadsInts(lib) && GoodMember(lib, m, d) && i < |s| && Skip(s, i) == base + Indent(fmt, d)
    requires At(s, base, Name(m.name, fmt, d) + Text(lib, m.value, fmt, d))
    requires Follows(s, base + |Name(m.name, fmt, d)| + |Text(lib, m.value, fmt, d)|)
    ensures var n := base + |Name(m.name, fmt, d)| + |Text(lib, m.value, fmt, d)|;
            n <= |s| && Field(lib, s, i, d) == Ok(m, Skip(s, n))
    decreases m, 1
  {
    hide At, Skip, Text, Value, Field, StringAt, Quoted, Name, Colon, Good;
    var t := Text(lib, m.value, fmt, d);
    var k := base + Indent(fmt, d) + |Quoted(m.name)|;
    AtSplit(s, base, Name(m.name, fmt, d), t);
    GoodFirst(lib, m.value, fmt, d);
    Byte(s, base + |Name(m.name, fmt, d)|, t, 0);
    NameReads(s, base, m.name, fmt, d);
    ValueReads(lib, s, k + |Colon(fmt)|, m.value, fmt, d);
    FieldStep(lib, s, i, d, m.name, k, m.value, k + |Colon(fmt)| + |t|);
  }

  lemma GoodFirst(lib: Numbers, v: Json, fmt: bool, d: nat)
    requires Good(lib, v, d)
    ensures var t := Text(lib, v, fmt, d); t != "" && t[0] > ' '
  {
    hide Text;
    FirstByte(lib, v, fmt, d);
  }

  /** A printed member name reads back, and the value follows the colon. */
  lemma NameReads(s: string, base: nat, name: string, fmt: bool, d: nat)
    requires At(s, base, Name(name, fmt, d)) && NUL !in name
    requires base + |Name(name, fmt, d)| < |s| && s[base + |Name(name, fmt, d)|] > ' '
    ensures var j := base + Indent(fmt, d); var k := j + |Quoted(name)|;
            && StringAt(s, j) == Ok(name, k) && k < |s| && s[k] == ':' && Skip(s, k) == k
            && Skip(s, k + 1) == k + |Colon(fmt)| && k + |Colon(fmt)| == base + |Name(name, fmt, d)|
  {
    hide At, Skip, StringAt, Quoted, Name, Colon;
    NameAt(s, base, name, fmt, d);
    StringReads(s, base + Indent(fmt, d), name);
    Stays(s, base + Indent(fmt, d) + |Quoted(name)|);
    AfterColon(s, base + Indent(fmt, d) + |Quoted(name)|, fmt);
  }

  lemma AfterColon(s: string, k: nat, fmt: bool)
    requires At(s, k, Colon(fmt)) && k + |Colon(fmt)| < |s| && s[k + |Colon(fmt)|] > ' '
    ensures Skip(s, k + 1) == k + |Colon(fmt)|
  {
    hide At, Skip;
    var c := Colon(fmt);
    AtSplit(s, k, c[..1], c[1..]) by { assert c == c[..1] + c[1..]; }
    Blanks(s, k + 1, c[1..]);
  }

  /** Where the parts before a member's value stand. */
  lemma NameAt(s: string, base: nat, name: string, fmt: bool, d: nat)
    requires At(s, base, Name(name, fmt, d))
    ensures var k := base + Indent(fmt, d) + |Quoted(name)|;
            && At(s, base, Tabs(Indent(fmt, d))) && At(s, base + Indent(fmt, d), Quoted(name))
            && At(s, k, Colon(fmt)) && k < |s| && s[k] == ':'
            && |Name(name, fmt, d)| == Indent(fmt, d) + |Quoted(name)| + |Colon(fmt)|
  {
    hide At, Quoted;
    var tabs, q := Tabs(Indent(fmt, d)), Quoted(name);
    AtSplit(s, base, tabs + q, Colon(fmt));
    AtSplit(s, base, tabs, q);
    Byte(s, base + |tabs| + |q|, Colon(fmt), 0);
  }

  lemma {:induction false} FieldsRead(lib: Numbers, s: string, i: nat, base: nat, ms: seq<Member>, fmt: bool, d: nat)
    requires ReadsInts(lib) && d > 0 && ms != [] && forall k :: 0 <= k < |ms| ==> GoodMember(lib, ms[k], d)
    requires i < |s| && Skip(s, i) == base + Indent(fmt, d) && At(s, base, Members(lib, ms, fmt, d) + Close(fmt, d - 1))
    ensures Fields(lib, s, i, d) == Ok(ms, base + |Members(lib, ms, fmt, d)| + |Close(fmt, d - 1)|)
    decreases ms, 0
  {
    hide At, Skip, Text, Field, Fields, Name, Good, Close, Members, Newline, Indent;
    var m, rest := ms[0], ms[1..];
    var n := base + |Name(m.name, fmt, d)| + |Text(lib, m.value, fmt, d)|;
    MembersAt(lib, s, base, ms, fmt, d);
    var end := base + |Members(lib, ms, fmt, d)| + |Close(fmt, d - 1)|;
    assert ms == [m] + rest;
    if rest != [] {
      Stays(s, n);
      FieldReads(lib, s, i, base, m, fmt, d);
      NameStarts(lib, s, n + 1, rest, fmt, d);
      forall k | 0 <= k < |rest| ensures GoodMember(lib, rest[k], d) { assert rest[k] == ms[k + 1]; }
      AtSplit(s, n + 1, Newline(fmt), Members(lib, rest, fmt, d) + Close(fmt, d - 1));
      FieldsRead(lib, s, n + 1, n + 1 + |Newline(fmt)|, rest, fmt, d);
      FieldsStep(lib, s, i, d, m, n, rest, end);
    } else {
      Closes(s, n, fmt, d);
      FieldReads(lib, s, i, base, m, fmt, d);
      FieldsStep(lib, s, i, d, m, Skip(s, n), rest, end);
    }
  }

  /** Where the parts of a printed member list stand. */
  lemma MembersAt(lib: Numbers, s: string, base: nat, ms: seq<Member>, fmt: bool, d: nat)
    requires d > 0 && ms != [] && At(s, base, Members(lib, ms, fmt, d) + Close(fmt, d - 1))
    ensures var head := Name(ms[0].name, fmt, d) + Text(lib, ms[0].value, fmt, d);
            var rest, n := ms[1..], base + |head|;
            && At(s, base, head)
            && if rest == [] then
                 At(s, n, Newline(fmt) + Close(fmt, d - 1)) && |Members(lib, ms, fmt, d)| == |head| + |Newline(fmt)|
               else
                 && n < |s| && s[n] == ','
                 && At(s, n + 1, Newline(fmt) + (Members(lib, rest, fmt, d) + Close(fmt, d - 1)))
                 && |Members(lib, ms, fmt, d)| == |head| + 1 + |Newline(fmt)| + |Members(lib, rest, fmt, d)|
  {
    hide At, Text, Name, Close, Ending, Newline, Members;
    var head := Name(ms[0].name, fmt, d) + Text(lib, ms[0].value, fmt, d);
    var end, r := Ending(|ms| > 1, fmt), Members(lib, ms[1..], fmt, d);
    MembersUnfold(lib, ms, fmt, d);
    AtParts(s, base, head, end, r, Close(fmt, d - 1));
    EndingAt(s, base + |head|, |ms| > 1, fmt);
    if |ms| > 1 {
      AtJoin(s, base + |head| + 1, Newline(fmt), r + Close(fmt, d - 1));
    } else {
      assert r + Close(fmt, d - 1) == Close(fmt, d - 1);
      AtJoin(s, base + |head|, Newline(fmt), Close(fmt, d - 1));
    }
  }

  lemma EndingAt(s: string, n: nat, more: bool, fmt: bool)
    requires At(s, n, Ending(more, fmt))
    ensures if more then
              n < |s| && s[n] == ',' && At(s, n + 1, Newline(fmt)) && |Ending(more, fmt)| == 1 + |Newline(fmt)|
            else Ending(more, fmt) == Newline(fmt)
  {
    hide At;
    if more {
      assert Ending(more, fmt) == "," + Newline(fmt);
      AtSplit(s, n, ",", Newline(fmt));
      Byte(s, n, ",", 0);
    }
  }

  // ---- Whole texts ----

  /** Every tree of null, booleans, ints, C strings, arrays and objects that prints, formatted or not,
      parses back to itself, whether or not the parser insists on the end of the text. */
  lemma RoundTrip(lib: Numbers, v: Json, fmt: bool, whole: bool)
    requires ReadsInts(lib) && Integral(v) && Terminated(v) && Printable(lib, v, 0)
    ensures Parse(lib, Text(lib, v, fmt, 0), whole) == Some(v)
  {
    hide Text, Value, Integral, Printable, Terminated;
    var t := Text(lib, v, fmt, 0);
    var s := t + [NUL];
    assert At(s, 0, t);
    FirstByte(lib, v, fmt, 0);
    Stays(s, 0);
    NotWord(s, 0, "\U{EF}\U{BB}\U{BF}");
    ValueReads(lib, s, 0, v, fmt, 0);
    assert Skip(s, |t|) == |t|;
  }

  // ---- Accepted texts ----

  /** Nesting within the limit, and only C strings. */
  predicate Sound(v: Json, d: nat) {
    match v
    case String(s) => NUL !in s
    case Array(items) => d < NESTING_LIMIT && forall i :: 0 <= i < |items| ==> Sound(items[i], d + 1)
    case Object(ms) => d < NESTING_LIMIT && forall i :: 0 <= i < |ms| ==> SoundMember(ms[i], d + 1)
    case _ => true
  }

  predicate SoundMember(m: Member, d: nat) {
    NUL !in m.name && Sound(m.value, d)
  }

  /** What the parser accepts nests no deeper than the printer allows, and its strings are C strings. */
  lemma {:induction false} ParsedSound(lib: Numbers, s: string, i: nat, d: nat)
    requires Sane(lib) && i <= |s|
    ensures var r := Value(lib, s, i, d); r.Ok? ==> Sound(r.value, d)
    decreases |s| - i, 0
  {
    hide At, StringAt, NumberAt, Elements, Fields;
    if i < |s| && d < NESTING_LIMIT {
      ElementsSound(lib, s, Skip(s, i + 1), d + 1);
      FieldsSound(lib, s, Skip(s, i + 1), d + 1);
      NumberFlat(lib, s, i, d);
    }
    if i < |s| { NumberFlat(lib, s, i, d); }
  }

  lemma NumberFlat(lib: Numbers, s: string, i: nat, d: nat)
    requires Sane(lib) && i <= |s|
    ensures var r := NumberAt(lib, s, i); r.Ok? ==> Sound(r.value, d)
  {
  }

  lemma {:induction false} ElementsSound(lib: Numbers, s: string, i: nat, d: nat)
    requires Sane(lib) && i <= |s|
    ensures var r := Elements(lib, s, i, d); r.Ok? ==> forall k :: 0 <= k < |r.value| ==> Sound(r.value[k], d)
    decreases |s| - i, 1
  {
    hide Value, Skip, Sound;
    ParsedSound(lib, s, Skip(s, i), d);
    var r := Value(lib, s, Skip(s, i), d);
    if r.Ok? && Skip(s, r.next) < |s| { ElementsSound(lib, s, Skip(s, r.next) + 1, d); }
  }

  lemma {:induction false} FieldSound(lib: Numbers, s: string, i: nat, d: nat)
    requires Sane(lib) && i <= |s|
    ensures var r := Field(lib, s, i, d); r.Ok? ==> SoundMember(r.value, d)
    decreases |s| - i, 1
  {
    hide Value, Skip, Sound, StringAt;
    if i < |s| {
      var name := StringAt(s, Skip(s, i));
      if name.Ok? && Skip(s, name.next) < |s| { ParsedSound(lib, s, Skip(s, Skip(s, name.next) + 1), d); }
    }
  }

  lemma {:induction false} FieldsSound(lib: Numbers, s: string, i: nat, d: nat)
    requires Sane(lib) && i <= |s|
    ensures var r := Fields(lib, s, i, d); r.Ok? ==> forall k :: 0 <= k < |r.value| ==> SoundMember(r.value[k], d)
    decreases |s| - i, 2
  {
    hide Field, Sound, SoundMember;
    FieldSound(lib, s, i, d);
    var r := Field(lib, s, i, d);
    if r.Ok? && r.next < |s| { FieldsSound(lib, s, r.next + 1, d); }
  }

  function Pow10(k: nat): nat {
    if k == 0 then 1 else 10 * Pow10(k - 1)
  }

  lemma {:induction false} DigitsShort(n: nat, k: nat)
    requires k > 0 && n < Pow10(k)
    ensures |Digits(n)| <= k
  {
    if n >= 10 { DigitsShort(n / 10, k - 1); }
  }

  lemma {:induction false} SoundPrints(lib: Numbers, v: Json, d: nat)
    requires Sound(v, d) && Integral(v)
    ensures Printable(lib, v, d) && Terminated(v)
  {
    match v
    case Number(_, n) =>
      assert Pow10(4) == 10000 && Pow10(8) == 100000000 && Pow10(10) == 10000000000 by {
        assert Pow10(2) == 100 && Pow10(6) == 1000000;
      }
      DigitsShort(if n < 0 then -n else n, 10);
    case Array(items) =>
      forall i | 0 <= i < |items| ensures Printable(lib, items[i], d + 1) && Terminated(items[i]) {
        SoundPrints(lib, items[i], d + 1);
      }
    case Object(ms) =>
      forall i | 0 <= i < |ms| ensures Printable(lib, ms[i].value, d + 1) && Terminated(ms[i].value) {
        SoundPrints(lib, ms[i].value, d + 1);
      }
    case _ =>
  }

  /** Every accepted text whose numbers are ints gives a tree that the printer can print, and the print
      reads as the same tree. */
  lemma Reprints(lib: Numbers, s: string, w: bool, fmt: bool, whole: bool)
    requires ReadsInts(lib)
    requires var r := Parse(lib, s, w); r.Some? && Integral(r.value)
    ensures var v := Parse(lib, s, w).value;
            Terminated(v) && Printable(lib, v, 0) && Parse(lib, Text(lib, v, fmt, 0), whole) == Some(v)
  {
    hide Value, Text;
    var v := Parse(lib, s, w).value;
    var t := s + [NUL];
    ParsedSound(lib, t, Skip(t, if |t| > 4 && At(t, 0, "\U{EF}\U{BB}\U{BF}") then 3 else 0), 0);
    SoundPrints(lib, v, 0);
    RoundTrip(lib, v, fmt, whole);
  }

  /** A NUL in a string cuts the string short: the text `"a\u0000b"` reads and prints as `"a"`. */
  lemma CutAtNul(lib: Numbers, w: bool, fmt: bool)
    requires Sane(lib)
    ensures var s := "\"a\\u0000b\"";
            Parse(lib, s, w) == Some(String("a")) && Text(lib, String("a"), fmt, 0) == "\"a\""
  {
    hide Value, StringAt, StringEnd, Unescape;
    var s := "\"a\\u0000b\"" + [NUL];
    NulLiteral(s);
    Stays(s, 0);
    NotWord(s, 0, "\U{EF}\U{BB}\U{BF}");
    StringValue(lib, s, 0, 0, "a", 10);
    assert Skip(s, 10) == 10;
  }

  lemma NulLiteral(s: string)
    requires s == "\"a\\u0000b\"" + [NUL]
    ensures StringAt(s, 0) == Ok("a", 10)
  {
    hide HexValue, CString;
    assert StringEnd(s, 8) == StringEnd(s, 9) == 9;
    assert StringEnd(s, 4) == StringEnd(s, 5) == StringEnd(s, 6) == StringEnd(s, 7) == StringEnd(s, 8);
    assert StringEnd(s, 1) == StringEnd(s, 2) == StringEnd(s, 4);
    HexOfByte(0);
    assert s[4..8] == "00" + [Digit(0), Digit(0)];
    assert Utf8(0) == [NUL];
    assert Unit(s, 2, 9) == Esc([NUL], 6);
    assert Unescape(s, 9, 9) == Some("") && "b" + "" == "b";
    assert Unescape(s, 8, 9) == Prepend("b", Unescape(s, 9, 9)) == Some("b");
    assert Unescape(s, 2, 9) == Prepend([NUL], Unescape(s, 8, 9));
    assert Unescape(s, 1, 9) == Prepend("a", Unescape(s, 2, 9));
    CutPlain([NUL] + "b");
  }

  lemma CutPlain(rest: string)
    requires rest != "" && rest[0] == NUL
    ensures CString("a" + rest) == "a"
  {
    assert ("a" + rest)[1..] == rest;
  }
}
