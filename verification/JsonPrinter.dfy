/** The printer of src/cJSON.c: a growing or fixed buffer, written at an offset that may lag behind
    the text until the terminator is looked for. */
module JsonPrinter {
  import opened Json

  /** The library renders numbers as C strings. */
  ghost predicate Renders(lib: Numbers) {
    forall x :: NUL !in lib.render(x)
  }

  lemma {:induction false} EscapedTerminated(s: string)
    requires NUL !in s
    ensures NUL !in EscapedAll(s)
  {
    if s != "" { EscapedTerminated(s[1..]); }
  }

  lemma {:induction false} TextTerminated(lib: Numbers, v: Json, fmt: bool, d: nat)
    requires Renders(lib) && Terminated(v)
    ensures NUL !in Text(lib, v, fmt, d)
    decreases v, 0
  {
    hide Items, Members, Quoted, NumberText, Close, Newline;
    match v
    case String(s) => QuotedTerminated(s);
    case Array(items) => ItemsTerminated(lib, items, fmt, d + 1);
    case Object(ms) => MembersTerminated(lib, ms, fmt, d + 1); BracesTerminated(fmt, d);
    case Number(_, _) => NumberTerminated(lib, v);
    case _ =>
  }

  lemma BracesTerminated(fmt: bool, d: nat)
    ensures NUL !in "{" + Newline(fmt) && NUL !in Close(fmt, d)
  {
  }

  lemma NumberTerminated(lib: Numbers, v: Json)
    requires Renders(lib) && v.Number?
    ensures NUL !in NumberText(lib, v)
  {
  }

  lemma {:induction false} ItemsTerminated(lib: Numbers, items: seq<Json>, fmt: bool, d: nat)
    requires Renders(lib) && forall i :: 0 <= i < |items| ==> Terminated(items[i])
    ensures NUL !in Items(lib, items, fmt, d)
    decreases items, 0
  {
    hide Text;
    if items != [] {
      TextTerminated(lib, items[0], fmt, d);
      ItemsTerminated(lib, items[1..], fmt, d);
    }
  }

  lemma {:induction false} MembersTerminated(lib: Numbers, ms: seq<Member>, fmt: bool, d: nat)
    requires Renders(lib) && forall i :: 0 <= i < |ms| ==> NUL !in ms[i].name && Terminated(ms[i].value)
    ensures NUL !in Members(lib, ms, fmt, d)
    decreases ms, 0
  {
    hide Text, Name;
    if ms != [] {
      NameTerminated(ms[0].name, fmt, d);
      TextTerminated(lib, ms[0].value, fmt, d);
      MembersTerminated(lib, ms[1..], fmt, d);
    }
  }

  lemma QuotedTerminated(s: string)
    requires NUL !in s
    ensures NUL !in Quoted(s)
  {
    EscapedTerminated(s);
  }

  lemma NameTerminated(name: string, fmt: bool, d: nat)
    requires NUL !in name
    ensures NUL !in Name(name, fmt, d)
  {
    hide Quoted;
    QuotedTerminated(name);
  }

  lemma ArrayUnfold(lib: Numbers, items: seq<Json>, fmt: bool, d: nat)
    ensures Text(lib, Array(items), fmt, d) == "[" + Items(lib, items, fmt, d + 1) + "]"
    ensures Printable(lib, Array(items), d) <==> d < NESTING_LIMIT && AllPrintable(lib, items, d + 1)
  {
  }

  lemma ObjectUnfold(lib: Numbers, ms: seq<Member>, fmt: bool, d: nat)
    ensures Text(lib, Object(ms), fmt, d) == "{" + Newline(fmt) + Members(lib, ms, fmt, d + 1) + Close(fmt, d)
    ensures Printable(lib, Object(ms), d) <==>
            d < NESTING_LIMIT && forall i :: 0 <= i < |ms| ==> Printable(lib, ms[i].value, d + 1)
  {
  }

  lemma NoTabs()
    ensures Tabs(0) == ""
  {
  }

  lemma ItemsNone(lib: Numbers, items: seq<Json>, fmt: bool, d: nat)
    requires items == []
    ensures Items(lib, items, fmt, d) == ""
  {
  }

  lemma MembersNone(lib: Numbers, ms: seq<Member>, fmt: bool, d: nat)
    requires ms == []
    ensures Members(lib, ms, fmt, d) == ""
  {
  }

  lemma {:induction false} NothingEscaped(s: string)
    requires |EscapedAll(s)| == |s|
    ensures EscapedAll(s) == s
  {
    if s != "" { NothingEscaped(s[1..]); }
  }

  /** Additional bytes for a byte of a string, as the first pass of print_string_ptr counts them. */
  function Extra(c: char): nat {
    if c == '\"' || c == '\\' || c == '\U{8}' || c == '\U{C}' || c == '\n' || c == '\r' || c == '\t' then 1
    else if c < ' ' then 5 else 0
  }

  lemma Assoc(a: string, b: string, c: string)
    ensures a + b + c == a + (b + c)
  {
  }

  class Printer {
    const lib: Numbers
    const noalloc: bool
    const format: bool
    ghost const limit: nat
    var buffer: array<char>
    var offset: nat
    var depth: nat

    /** The buffer up to the offset is the text `t`. */
    ghost predicate Has(t: string)
      reads `buffer, `offset, buffer
    {
      && buffer.Length <= limit <= INT_MAX && limit == (if noalloc then buffer.Length else INT_MAX)
      && (offset < buffer.Length || offset == buffer.Length == 0)
      && offset == |t| && buffer[..offset] == t
    }

    /** The buffer is `t + u` and a terminator, the offset somewhere in `u` or at its ends. */
    ghost predicate Ends(t: string, u: string)
      reads `buffer, `offset, buffer
    {
      && |t| + |u| < buffer.Length <= limit <= INT_MAX && limit == (if noalloc then buffer.Length else INT_MAX)
      && |t| <= offset <= |t| + |u| && buffer[..|t| + |u| + 1] == t + u + [NUL]
    }

    /** cJSON_PrintPreallocated, or with `fixed` false cJSON_PrintBuffered. */
    constructor (numbers: Numbers, bytes: array<char>, fixed: bool, fmt: bool)
      requires bytes.Length <= INT_MAX
      ensures lib == numbers && noalloc == fixed && format == fmt && buffer == bytes && depth == 0 && Has("")
      ensures limit == if fixed then bytes.Length else INT_MAX
    {
      lib, noalloc, format, buffer, offset, depth := numbers, fixed, fmt, bytes, 0, 0;
      limit := if fixed then bytes.Length else INT_MAX;
    }

    /** ensure: room for `needed` more bytes and one. */
    method Ensure(needed: nat, ghost t: string) returns (ok: bool)
      requires Has(t)
      modifies `buffer
      ensures Has(t) && (buffer == old(buffer) || fresh(buffer))
      ensures ok <==> |t| + needed + 1 <= limit
      ensures ok ==> offset + needed < buffer.Length
    {
      if buffer.Length > 0 && offset >= buffer.Length { assert false; }
      if needed > INT_MAX { return false; }
      var total := needed + offset + 1;
      if total <= buffer.Length { return true; }
      if noalloc { return false; }
      var size := total * 2;
      if total > INT_MAX / 2 {
        if total > INT_MAX { return false; }
        size := INT_MAX;
      }
      var bigger := new char[size];
      forall i | 0 <= i < buffer.Length { bigger[i] := buffer[i]; }
      buffer := bigger;
      return true;
    }

    /** Copying `t` to the buffer at `at`. */
    method Put(at: nat, t: string)
      requires at + |t| <= buffer.Length
      modifies buffer
      ensures buffer[..at + |t|] == old(buffer[..at]) + t
    {
      for i := 0 to |t|
        invariant buffer[..at] == old(buffer[..at]) && buffer[at..at + i] == t[..i]
      {
        buffer[at + i] := t[i];
        assert t[..i + 1] == t[..i] + [t[i]];
      }
      assert buffer[..at + |t|] == buffer[..at] + buffer[at..at + |t|];
    }

    /** Reserving room for `t` and `slack` more bytes, writing `t` and moving on. */
    method Emit(t: string, slack: nat, ghost before: string) returns (ok: bool)
      requires Has(before)
      modifies `buffer, `offset, buffer
      ensures buffer == old(buffer) || fresh(buffer)
      ensures ok <==> |before| + |t| + slack + 1 <= limit
      ensures ok ==> Has(before + t)
    {
      ok := Ensure(|t| + slack, before);
      if ok {
        Put(offset, t);
        offset := offset + |t|;
      }
    }

    /** Writing `t` with its terminator; the offset stays. */
    method EmitEnded(t: string, ghost before: string) returns (ok: bool)
      requires Has(before)
      modifies `buffer, buffer
      ensures buffer == old(buffer) || fresh(buffer)
      ensures ok <==> |before| + |t| + 2 <= limit
      ensures ok ==> Ends(before, t)
    {
      ok := Ensure(|t| + 1, before);
      if ok {
        Put(offset, t + [NUL]);
        Assoc(before, t, [NUL]);
      }
    }

    /** update_offset. */
    method UpdateOffset(ghost t: string, ghost u: string)
      requires Ends(t, u) && NUL !in u
      modifies `offset
      ensures Has(t + u)
    {
      ghost var whole := t + u + [NUL];
      forall i | |t| <= i < |t| + |u| ensures buffer[i] == u[i - |t|] { assert buffer[i] == whole[i]; }
      assert buffer[|t| + |u|] == whole[|t| + |u|];
      while buffer[offset] != NUL
        invariant |t| <= offset <= |t| + |u|
        decreases |t| + |u| - offset
      {
        offset := offset + 1;
      }
      assert buffer[..offset] == whole[..offset] == t + u;
    }

    /** The first pass of print_string_ptr. */
    method CountExtra(s: string) returns (extra: nat)
      ensures |s| + extra == |EscapedAll(s)|
    {
      extra := 0;
      assert s[0..] == s;
      for i := 0 to |s|
        invariant i + extra + |EscapedAll(s[i..])| == |EscapedAll(s)|
      {
        assert s[i..][1..] == s[i + 1..];
        extra := extra + Extra(s[i]);
      }
    }

    /** The second pass of print_string_ptr. */
    method PutEscaped(start: nat, s: string)
      requires start + |EscapedAll(s)| <= buffer.Length
      modifies buffer
      ensures buffer[..start + |EscapedAll(s)|] == old(buffer[..start]) + EscapedAll(s)
    {
      hide Escaped;
      ghost var whole := old(buffer[..start]) + EscapedAll(s);
      var at := start;
      assert s[0..] == s;
      for i := 0 to |s|
        invariant start <= at && at + |EscapedAll(s[i..])| == |whole|
        invariant buffer[..at] + EscapedAll(s[i..]) == whole
      {
        assert s[i..][1..] == s[i + 1..];
        ghost var done, rest := buffer[..at], EscapedAll(s[i + 1..]);
        Put(at, Escaped(s[i]));
        at := at + |Escaped(s[i])|;
        Assoc(done, Escaped(s[i]), rest);
      }
      assert EscapedAll(s[|s|..]) == "";
    }

    /** print_string_ptr. */
    method PrintString(s: string, ghost before: string) returns (ok: bool)
      requires Has(before)
      modifies `buffer, buffer
      ensures buffer == old(buffer) || fresh(buffer)
      ensures ok <==> |before| + |Quoted(s)| + 2 <= limit
      ensures ok ==> Ends(before, Quoted(s))
    {
      hide EscapedAll;
      var extra := CountExtra(s);
      if extra == 0 {
        NothingEscaped(s);
        ok := EmitEnded("\"" + s + "\"", before);
        return;
      }
      ok := Ensure(|s| + extra + 3, before);
      if ok { PutQuoted(s, |s| + extra, before); }
    }

    method PutQuoted(s: string, length: nat, ghost before: string)
      requires length == |EscapedAll(s)| && Has(before) && offset + length + 2 < buffer.Length
      modifies buffer
      ensures Ends(before, Quoted(s))
    {
      hide EscapedAll;
      ghost var e := EscapedAll(s);
      Put(offset, "\"");
      PutEscaped(offset + 1, s);
      Put(offset + 1 + length, "\"" + [NUL]);
      assert before + "\"" + e + ("\"" + [NUL]) == before + Quoted(s) + [NUL];
    }

    /** print_number. */
    method PrintNumber(v: Json, ghost before: string) returns (ok: bool)
      requires Has(before) && v.Number?
      modifies `buffer, `offset, buffer
      ensures buffer == old(buffer) || fresh(buffer)
      ensures ok <==> |NumberText(lib, v)| <= 25 && |before| + |NumberText(lib, v)| + 2 <= limit
      ensures ok ==> Ends(before, NumberText(lib, v))
    {
      var t := if v.value == v.whole as real then Decimal(v.whole) else lib.render(v.value);
      if |t| > 25 { return false; }
      ok := EmitEnded(t, before);
      if ok { offset := offset + |t|; }
    }

    /** print_value. It succeeds just when the nesting is within the limit and text, terminator and
        one more byte fit; no byte is ever written outside the buffer. */
    method PrintValue(v: Json, ghost before: string) returns (ok: bool)
      requires Has(before) && Renders(lib) && Terminated(v)
      modifies this, buffer
      ensures buffer == old(buffer) || fresh(buffer)
      ensures ok <==> Printable(lib, v, old(depth)) && |before| + |Text(lib, v, format, old(depth))| + 2 <= limit
      ensures ok ==> depth == old(depth) && Ends(before, Text(lib, v, format, depth))
      decreases v, 1
    {
      hide Has, Ends, Quoted;
      match v
      case Null => ok := EmitEnded("null", before);
      case False => ok := EmitEnded("false", before);
      case True => ok := EmitEnded("true", before);
      case Number(_, _) => ok := PrintNumber(v, before);
      case String(s) => ok := PrintString(s, before);
      case Array(items) => ok := PrintArray(items, before);
      case Object(ms) => ok := PrintObject(ms, before);
    }

    /** A value inside an array or object, with `after` behind it. */
    method PrintPart(v: Json, after: string, ghost before: string) returns (ok: bool)
      requires Has(before) && Renders(lib) && Terminated(v)
      modifies this, buffer
      ensures buffer == old(buffer) || fresh(buffer)
      ensures ok <==>
        (Printable(lib, v, old(depth)) && |before| + |Text(lib, v, format, old(depth))| + |after| + 2 <= limit)
      ensures ok ==> depth == old(depth) && Has(before + Text(lib, v, format, depth) + after)
      decreases v, 2
    {
      hide Text, Printable, Terminated, Has, Ends;
      ghost var t := Text(lib, v, format, depth);
      TextTerminated(lib, v, format, depth);
      ok := PrintValue(v, before);
      if !ok { return; }
      UpdateOffset(before, t);
      ok := Emit(after, 1, before + t);
    }

    /** The loop of print_array. */
    method PrintItems(items: seq<Json>, ghost before: string) returns (ok: bool)
      requires Has(before) && Renders(lib) && (forall i :: 0 <= i < |items| ==> Terminated(items[i]))
      modifies this, buffer
      ensures buffer == old(buffer) || fresh(buffer)
      ensures ok <==> AllPrintable(lib, items, old(depth)) &&
                      (items == [] || |before| + |Items(lib, items, format, old(depth))| + 2 <= limit)
      ensures ok ==> depth == old(depth) && Has(before + Items(lib, items, format, depth))
      decreases items, 0
    {
      hide Text, Printable, Terminated, Items, Comma, Has;
      ghost var all, done := Items(lib, items, format, depth), "";
      assert items[0..] == items && before + "" == before;
      for i := 0 to |items|
        invariant (buffer == old(buffer) || fresh(buffer)) && depth == old(depth) && Has(before + done)
        invariant done + Items(lib, items[i..], format, depth) == all && (i > 0 ==> |before| + |done| + 2 <= limit)
        invariant forall k :: 0 <= k < i ==> Printable(lib, items[k], depth)
      {
        ghost var t, rest := Text(lib, items[i], format, depth), Items(lib, items[i + 1..], format, depth);
        var comma := Comma(i + 1 < |items|, format);
        ItemsUnfold(lib, items[i..], format, depth);
        assert items[i..][1..] == items[i + 1..];
        Assoc(done, t + comma, rest);
        ok := PrintPart(items[i], comma, before + done);
        if !ok { return; }
        Assoc(before, done, t);
        Assoc(before, done + t, comma);
        Assoc(done, t, comma);
        done := done + (t + comma);
      }
      ItemsNone(lib, items[|items|..], format, depth);
      assert done == all;
      ok := true;
    }

    /** print_array. */
    method PrintArray(items: seq<Json>, ghost before: string) returns (ok: bool)
      requires Has(before) && Renders(lib) && Terminated(Array(items))
      modifies this, buffer
      ensures buffer == old(buffer) || fresh(buffer)
      ensures ok <==>
        (Printable(lib, Array(items), old(depth))
         && |before| + |Text(lib, Array(items), format, old(depth))| + 2 <= limit)
      ensures ok ==> depth == old(depth) && Ends(before, Text(lib, Array(items), format, depth))
      decreases items, 1
    {
      hide Items, Text, Printable, Has, Ends;
      ArrayUnfold(lib, items, format, depth);
      if depth >= NESTING_LIMIT { return false; }
      ok := Emit("[", 0, before);
      if !ok { return; }
      depth := depth + 1;
      ghost var all := Items(lib, items, format, depth);
      ok := PrintItems(items, before + "[");
      if !ok { return; }
      Assoc(before, "[", all);
      ok := EmitEnded("]", before + ("[" + all));
      if !ok { return; }
      depth := depth - 1;
      Absorb(before, "[" + all, "]");
    }

    lemma Absorb(t: string, u: string, w: string)
      requires Ends(t + u, w)
      ensures Ends(t, u + w)
    {
      Assoc(t, u, w);
    }

    /** Indentation, key and colon. */
    method PrintName(name: string, ghost before: string) returns (ok: bool)
      requires Has(before) && NUL !in name
      modifies `buffer, `offset, buffer
      ensures buffer == old(buffer) || fresh(buffer)
      ensures !ok ==> |before| + |Name(name, format, depth)| + 2 > limit
      ensures ok ==> Has(before + Name(name, format, depth))
    {
      hide Quoted, Has, Ends, Tabs;
      ghost var tabs, q := Tabs(Indent(format, depth)), Quoted(name);
      if format {
        ok := Emit(Tabs(depth), 0, before);
        if !ok { return; }
      } else {
        NoTabs();
        assert before + tabs == before;
      }
      ok := PrintString(name, before + tabs);
      if !ok { return; }
      QuotedTerminated(name);
      UpdateOffset(before + tabs, q);
      ok := Emit(Colon(format), 0, before + tabs + q);
      Assoc(before, tabs, q);
      Assoc(before, tabs + q, Colon(format));
    }

    /** The loop of print_object. */
    method PrintMembers(ms: seq<Member>, ghost before: string) returns (ok: bool)
      requires Has(before) && Renders(lib)
      requires forall i :: 0 <= i < |ms| ==> NUL !in ms[i].name && Terminated(ms[i].value)
      modifies this, buffer
      ensures buffer == old(buffer) || fresh(buffer)
      ensures ok <==> (forall i :: 0 <= i < |ms| ==> Printable(lib, ms[i].value, old(depth))) &&
                      (ms == [] || |before| + |Members(lib, ms, format, old(depth))| + 2 <= limit)
      ensures ok ==> depth == old(depth) && Has(before + Members(lib, ms, format, depth))
      decreases ms, 0
    {
      hide Line, Printable, Terminated, Members, Has;
      ghost var all, done := Members(lib, ms, format, depth), "";
      assert ms[0..] == ms && before + "" == before;
      for i := 0 to |ms|
        invariant (buffer == old(buffer) || fresh(buffer)) && depth == old(depth) && Has(before + done)
        invariant done + Members(lib, ms[i..], format, depth) == all && (i > 0 ==> |before| + |done| + 2 <= limit)
        invariant forall k :: 0 <= k < i ==> Printable(lib, ms[k].value, depth)
      {
        ghost var line, rest := Line(lib, ms[i], i + 1 < |ms|, format, depth), Members(lib, ms[i + 1..], format, depth);
        MembersUnfold(lib, ms[i..], format, depth);
        assert ms[i..][1..] == ms[i + 1..];
        Assoc(done, line, rest);
        ok := PrintMember(ms[i], i + 1 < |ms|, before + done);
        if !ok { return; }
        Assoc(before, done, line);
        done := done + line;
      }
      MembersNone(lib, ms[|ms|..], format, depth);
      assert done == all;
      ok := true;
    }

    /** One member of an object, with what stands around it. */
    method PrintMember(m: Member, more: bool, ghost before: string) returns (ok: bool)
      requires Has(before) && Renders(lib) && NUL !in m.name && Terminated(m.value)
      modifies this, buffer
      ensures buffer == old(buffer) || fresh(buffer)
      ensures ok <==>
        (Printable(lib, m.value, old(depth)) && |before| + |Line(lib, m, more, format, old(depth))| + 2 <= limit)
      ensures ok ==> depth == old(depth) && Has(before + Line(lib, m, more, format, depth))
      decreases m, 3
    {
      hide Text, Printable, Terminated, Name, Has, Ending;
      ghost var name, t, end := Name(m.name, format, depth), Text(lib, m.value, format, depth), Ending(more, format);
      ok := PrintName(m.name, before);
      if !ok { return; }
      ok := PrintPart(m.value, Ending(more, format), before + name);
      Assoc(before, name, t);
      Assoc(before, name + t, end);
    }

    /** print_object. */
    method PrintObject(ms: seq<Member>, ghost before: string) returns (ok: bool)
      requires Has(before) && Renders(lib) && Terminated(Object(ms))
      modifies this, buffer
      ensures buffer == old(buffer) || fresh(buffer)
      ensures ok <==>
        (Printable(lib, Object(ms), old(depth)) && |before| + |Text(lib, Object(ms), format, old(depth))| + 2 <= limit)
      ensures ok ==> depth == old(depth) && Ends(before, Text(lib, Object(ms), format, depth))
      decreases ms, 1
    {
      hide Members, Text, Printable, Close, Has, Ends, Newline;
      ObjectUnfold(lib, ms, format, depth);
      if depth >= NESTING_LIMIT { return false; }
      ghost var all := Members(lib, ms, format, depth + 1);
      var open := "{" + Newline(format);
      ok := Emit(open, 1, before);
      if !ok { return; }
      depth := depth + 1;
      ok := PrintMembers(ms, before + open);
      if !ok { return; }
      Assoc(before, open, all);
      ok := EmitEnded(Close(format, depth - 1), before + (open + all));
      if !ok { return; }
      depth := depth - 1;
      Absorb(before, open + all, Close(format, depth));
    }
  }
}
