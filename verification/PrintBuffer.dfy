/** The growing buffer that documents are printed into. */
module PrintBuffer {
  import opened CStrings
  import opened Decimal
  import opened JsonValue
  import opened Printer

  // ---- how much room printing asks for

  /** The request print_number makes before it knows how long the number is. */
  function NumberRoom(n: int): (r: nat) {
    if -INT_MAX - 1 <= n <= INT_MAX then 21 else 64
  }

  /** The most room, counted from where the value starts, that printing it ever asks for. */
  function Need(v: Json, depth: nat, format: bool): (n: nat)
    ensures n >= 2
    decreases v
  {
    match v
    case Null => 5
    case False => 6
    case True => 5
    case Number(n) => NumberRoom(n)
    case String(s) => |EscapeText(s)| + 3
    case Array(items) => 1 + NeedItems(items, depth, format)
    case Object(ms) => (if format then 2 else 1) + NeedMembers(ms, depth, format)
  }

  function NeedItems(items: seq<Json>, depth: nat, format: bool): (n: nat)
    ensures n >= 2
    decreases items
  {
    if items == [] then 2
    else
      Max(Need(items[0], depth + 1, format),
          |Print(items[0], depth + 1, format)| + (if |items| > 1 then |Comma(format)| else 0) +
          NeedItems(items[1..], depth, format))
  }

  function NeedMembers(ms: seq<Member>, depth: nat, format: bool): (n: nat)
    ensures n >= 2
    decreases ms
  {
    if ms == [] then (if format then depth + 2 else 2)
    else
      MemberHead(ms[0], depth, format) + NeedMember(ms[0], depth, format, |ms| > 1, NeedMembers(ms[1..], depth, format))
  }

  /** Indentation, quoted key and colon. */
  function MemberHead(m: Member, depth: nat, format: bool): (n: nat) {
    (if format then depth + 1 else 0) + |Quoted(m.key)| + |Colon(format)|
  }

  function NeedMember(m: Member, depth: nat, format: bool, more: bool, rest: nat): (n: nat)
    ensures n >= 2
    decreases m
  {
    Max(Need(m.value, depth + 1, format), |Print(m.value, depth + 1, format)| + |MemberEnd(more, format)| + rest)
  }

  // ---- printed text has no terminator inside

  lemma {:induction false} EscapeNulFree(s: string)
    requires NulFree(s)
    ensures NulFree(EscapeText(s))
  {
    if s != [] {
      EscapeNulFree(s[1..]);
    }
  }

  lemma QuotedNulFree(s: string)
    requires NulFree(s)
    ensures NulFree(Quoted(s))
  {
    hide EscapeText;
    EscapeNulFree(s);
  }

  lemma {:induction false} PrintNulFree(v: Json, depth: nat, format: bool)
    requires Printable(v)
    ensures NulFree(Print(v, depth, format))
    decreases v
  {
    hide PrintItems, PrintMembers, Quoted, Digits;
    match v
    case String(s) => QuotedNulFree(s);
    case Array(items) => ItemsNulFree(items, depth, format);
    case Object(ms) => MembersNulFree(ms, depth, format);
    case _ =>
  }

  lemma {:induction false} ItemsNulFree(items: seq<Json>, depth: nat, format: bool)
    requires Printable(Array(items))
    ensures NulFree(PrintItems(items, depth, format))
    decreases items
  {
    hide Print;
    if items != [] {
      PrintNulFree(items[0], depth + 1, format);
      ItemsNulFree(items[1..], depth, format);
    }
  }

  lemma {:induction false} MembersNulFree(ms: seq<Member>, depth: nat, format: bool)
    requires Printable(Object(ms))
    ensures NulFree(PrintMembers(ms, depth, format))
    decreases ms
  {
    hide Print, Quoted, PrintMember, MemberEnd;
    if ms != [] {
      QuotedNulFree(ms[0].key);
      PrintNulFree(ms[0].value, depth + 1, format);
      MemberNulFree(ms[0], |ms| > 1, depth, format);
      MembersNulFree(ms[1..], depth, format);
    }
  }

  lemma MemberNulFree(m: Member, more: bool, depth: nat, format: bool)
    requires NulFree(Quoted(m.key)) && NulFree(Print(m.value, depth + 1, format))
    ensures NulFree(PrintMember(m, depth, format)) && NulFree(MemberEnd(more, format))
  {
    hide Print, Quoted;
  }

  // ---- how far the requests exceed the text

  lemma {:induction false} DigitsAtMost(n: nat, k: nat)
    requires 0 < k && n < Pow(10, k)
    ensures |Digits(n)| <= k
  {
    if n >= 10 {
      DigitsAtMost(n / 10, k - 1);
    }
  }

  lemma {:induction false} DigitsAtLeast(n: nat, k: nat)
    requires Pow(10, k) <= n
    ensures |Digits(n)| > k
  {
    if k > 0 {
      DigitsAtLeast(n / 10, k - 1);
    }
  }

  lemma NumberFits(n: int)
    requires -EXACT <= n <= EXACT
    ensures |PrintNumber(n)| < NumberRoom(n) <= |PrintNumber(n)| + 54
  {
    hide Digits, Pow;
    var m := if n < 0 then -n else n;
    assert Pow(10, 10) == 1_0000_000_000 && Pow(10, 9) == 1_000_000_000 && Pow(10, 16) == 10_000_000_000_000_000 by {
      Powers();
    }
    DigitsAtMost(m, 16);
    if m < Pow(10, 10) {
      DigitsAtMost(m, 10);
    }
    if Pow(10, 9) <= m {
      DigitsAtLeast(m, 9);
    }
  }

  lemma Powers()
    ensures Pow(10, 9) == 1_000_000_000 && Pow(10, 10) == 10_000_000_000 && Pow(10, 16) == 10_000_000_000_000_000
  {
    assert Pow(10, 4) == 10_000;
    assert Pow(10, 8) == 100_000_000;
    assert Pow(10, 12) == 1_000_000_000_000;
  }

  /** Every request is at least the text and its terminator, and at most 53 characters more. */
  lemma {:induction false} NeedBounds(v: Json, depth: nat, format: bool)
    requires Printable(v)
    ensures |Print(v, depth, format)| < Need(v, depth, format) <= |Print(v, depth, format)| + 54
    decreases v
  {
    hide NeedItems, NeedMembers, PrintItems, PrintMembers, EscapeText, PrintNumber;
    match v
    case Number(n) => NumberFits(n);
    case Array(items) => NeedItemsBounds(items, depth, format);
    case Object(ms) => NeedMembersBounds(ms, depth, format);
    case _ =>
  }

  lemma {:induction false} NeedItemsBounds(items: seq<Json>, depth: nat, format: bool)
    requires Printable(Array(items))
    ensures |PrintItems(items, depth, format)| + 1 < NeedItems(items, depth, format) <=
      |PrintItems(items, depth, format)| + 55
    decreases items
  {
    hide Print, Need;
    if items != [] {
      NeedBounds(items[0], depth + 1, format);
      NeedItemsBounds(items[1..], depth, format);
    }
  }

  lemma {:induction false} NeedMembersBounds(ms: seq<Member>, depth: nat, format: bool)
    requires Printable(Object(ms))
    ensures var close := (if format then depth else 0) + 1;
      |PrintMembers(ms, depth, format)| + close < NeedMembers(ms, depth, format) <=
        |PrintMembers(ms, depth, format)| + close + 54
    decreases ms
  {
    hide Print, Need, Quoted;
    if ms != [] {
      NeedBounds(ms[0].value, depth + 1, format);
      NeedMembersBounds(ms[1..], depth, format);
      assert |PrintMember(ms[0], depth, format)| ==
        MemberHead(ms[0], depth, format) + |Print(ms[0].value, depth + 1, format)|;
    }
  }

  // ---- the buffer

  class Buffer {
    var buffer: array<char>
    var length: nat
    var offset: nat
    const noalloc: bool

    /** `length` counts usable characters, and everything before `offset` is finished. */
    ghost predicate Valid()
      reads this
    {
      offset <= length <= buffer.Length && length <= INT_MAX
    }

    /** How far the buffer can ever reach. */
    ghost function Limit(): (n: nat)
      reads this
    {
      if noalloc then length else INT_MAX
    }

    /** What is finished. */
    ghost function Text(): (s: string)
      requires Valid()
      reads this, buffer
      ensures |s| == offset
    {
      buffer[..offset]
    }

    /** What a block that must not move holds behind its usable length. */
    ghost function Beyond(): (s: string)
      requires Valid()
      reads this, buffer
    {
      if noalloc then buffer[length..] else []
    }

    /** `text` and its terminator stand behind what was there before; the offset is anywhere in it. */
    ghost predicate Shows(before: string, text: string)
      reads this, buffer
    {
      var end := |before| + |text|;
      Valid() && |before| <= offset <= end < length && buffer[..end] == before + text && buffer[end] == '\0'
    }

    constructor (storage: array<char>, len: nat, fixed: bool)
      requires len <= storage.Length && len <= INT_MAX
      ensures Valid() && buffer == storage && length == len && offset == 0 && noalloc == fixed
    {
      buffer, length, offset, noalloc := storage, len, 0, fixed;
    }

    /** `ensure`: make room for `needed` more characters, moving to a larger block if there may be one. */
    method Ensure(needed: nat) returns (ok: bool)
      requires Valid()
      modifies this
      ensures Valid() && offset == old(offset) && (buffer == old(buffer) || (!noalloc && fresh(buffer)))
      ensures Limit() == old(Limit())
      ensures ok <==> offset + needed <= Limit()
      ensures ok ==> offset + needed <= length
      ensures Text() == old(Text()) && Beyond() == old(Beyond())
      ensures !ok ==> unchanged(this)
    {
      if needed > INT_MAX {
        return false;
      }
      var end := needed + offset;
      if end <= length {
        return true;
      }
      if noalloc {
        return false;
      }
      var newsize := end * 2;
      if newsize > INT_MAX {
        if end <= INT_MAX {
          newsize := INT_MAX;
        } else {
          return false;
        }
      }
      var kept := Min(newsize, buffer.Length);
      var larger := Copied(buffer, kept, newsize);
      assert larger[..offset] == larger[..kept][..offset];
      assert buffer[..offset] == buffer[..kept][..offset];
      buffer := larger;
      length := newsize;
      return true;
    }

    /** Characters written at a place, leaving everything before it and behind them. */
    method Put(at: nat, text: string)
      requires at + |text| <= buffer.Length
      modifies buffer
      ensures buffer[..at + |text|] == old(buffer[..at]) + text
      ensures buffer[at + |text|..] == old(buffer[at + |text|..])
    {
      for i := 0 to |text|
        invariant buffer[..at + i] == old(buffer[..at]) + text[..i]
        invariant buffer[at + |text|..] == old(buffer[at + |text|..])
      {
        buffer[at + i] := text[i];
        assert buffer[..at + i + 1] == buffer[..at + i] + [text[i]];
        assert text[..i + 1] == text[..i] + [text[i]];
      }
      assert text[..|text|] == text;
    }

    /** Reserve, write and move past what was written. */
    method Advance(reserve: nat, text: string) returns (ok: bool)
      requires Valid() && |text| <= reserve
      modifies this, buffer
      ensures Valid() && Limit() == old(Limit()) && (buffer == old(buffer) || (!noalloc && fresh(buffer)))
      ensures old(Text()) <= Text() && Beyond() == old(Beyond())
      ensures ok <==> old(offset) + reserve <= Limit()
      ensures ok ==> Text() == old(Text()) + text
    {
      ok := Ensure(reserve);
      if ok {
        Put(offset, text);
        offset := offset + |text|;
      }
    }

    /** Reserve and write the last piece with a terminator, leaving the offset for `UpdateOffset`. */
    method Finish(reserve: nat, text: string) returns (ok: bool)
      requires Valid() && |text| < reserve
      modifies this, buffer
      ensures Valid() && Limit() == old(Limit()) && (buffer == old(buffer) || (!noalloc && fresh(buffer)))
      ensures old(Text()) <= Text() && Beyond() == old(Beyond())
      ensures ok <==> old(offset) + reserve <= Limit()
      ensures ok ==> Shows(old(Text()), text)
    {
      ghost var before := Text();
      ok := Ensure(reserve);
      if ok {
        Put(offset, text + "\0");
        Assoc(before, text, "\0");
        Written(before, text);
      }
    }

    /** `update_offset`: move to the terminator. */
    method UpdateOffset(ghost before: string, ghost text: string)
      requires Shows(before, text) && NulFree(text)
      modifies this`offset
      ensures Valid() && Text() == before + text && Beyond() == old(Beyond())
    {
      var k := offset;
      ghost var end := |before| + |text|;
      assert forall j :: offset <= j < end ==> buffer[j] == buffer[..end][j] == text[j - |before|];
      while buffer[k] != '\0'
        invariant offset <= k <= end
        decreases end - k
      {
        k := k + 1;
      }
      offset := k;
    }

    /** Text written with its terminator is shown. */
    lemma Written(before: string, text: string)
      requires Valid() && offset == |before| && offset + |text| < length
      requires buffer[..offset + |text| + 1] == before + text + "\0"
      ensures Shows(before, text) && before <= Text()
    {
      var end := offset + |text|;
      assert buffer[..end] == buffer[..end + 1][..end];
      assert buffer[end] == buffer[..end + 1][end];
    }

    /** A piece shown behind another is shown as one with it. */
    lemma ShowsJoined(before: string, done: string, last: string)
      requires Shows(before + done, last)
      ensures Shows(before, done + last)
    {
      assert (before + done) + last == before + (done + last);
    }

    lemma ShownFirst(text: string)
      requires Shows("", text)
      ensures StartsWith(buffer, text + "\0")
    {
      assert "" + text == text;
      assert buffer[..|text| + 1] == buffer[..|text|] + [buffer[|text|]];
    }

    /** `print_string_ptr`: count the escapes, reserve, then write. */
    method PrintString(s: string) returns (ok: bool)
      requires Valid() && NulFree(s)
      modifies this, buffer
      ensures Valid() && Limit() == old(Limit()) && (buffer == old(buffer) || (!noalloc && fresh(buffer)))
      ensures old(Text()) <= Text() && Beyond() == old(Beyond())
      ensures ok <==> old(offset) + |EscapeText(s)| + 3 <= Limit()
      ensures ok ==> Shows(old(Text()), Quoted(s))
    {
      hide EscapeText;
      ghost var before := Text();
      var escapes := CountEscapes(s);
      var outputLength := |s| + escapes;
      ok := Ensure(outputLength + 3);
      if !ok {
        return;
      }
      ghost var end := offset + |Quoted(s)| + 1;
      assert buffer[end..][length - end..] == buffer[length..];
      PutQuoted(s, escapes);
      assert buffer[end..][length - end..] == buffer[length..];
      Written(before, Quoted(s));
    }

    /** The literal with its quotes and a terminator. */
    method PutQuoted(s: string, escapes: nat)
      requires |s| + escapes == |EscapeText(s)| && offset + |Quoted(s)| < buffer.Length
      modifies buffer
      ensures buffer[..offset + |Quoted(s)| + 1] == old(buffer[..offset]) + Quoted(s) + "\0"
      ensures buffer[offset + |Quoted(s)| + 1..] == old(buffer[offset + |Quoted(s)| + 1..])
    {
      hide EscapeText;
      hide EscapeChar;
      ghost var before := buffer[..offset];
      var end := offset + |s| + escapes + 1;
      ghost var rest := buffer[end + 2..];
      Put(offset, "\"");
      assert buffer[offset + 1..][end + 1 - offset..] == rest;
      PutText(offset + 1, s, escapes);
      assert buffer[end..][2..] == rest;
      Put(end, "\"\0");
      assert before + "\"" + EscapeText(s) + "\"\0" == before + Quoted(s) + "\0";
    }

    /** Between the quotes: a plain copy if nothing was counted. */
    method PutText(start: nat, s: string, escapes: nat)
      requires |s| + escapes == |EscapeText(s)| && start + |EscapeText(s)| <= buffer.Length
      modifies buffer
      ensures buffer[..start + |EscapeText(s)|] == old(buffer[..start]) + EscapeText(s)
      ensures buffer[start + |EscapeText(s)|..] == old(buffer[start + |EscapeText(s)|..])
    {
      if escapes == 0 {
        NoEscapes(s);
        Put(start, s);
      } else {
        PutEscaped(start, s);
      }
    }

    /** The second pass of `print_string_ptr`. */
    method PutEscaped(start: nat, s: string)
      requires start + |EscapeText(s)| <= buffer.Length
      modifies buffer
      ensures buffer[..start + |EscapeText(s)|] == old(buffer[..start]) + EscapeText(s)
      ensures buffer[start + |EscapeText(s)|..] == old(buffer[start + |EscapeText(s)|..])
    {
      hide EscapeChar, EscapeText;
      ghost var end := start + |EscapeText(s)|;
      var at, i := start, 0;
      assert EscapeText(s[..0]) == [] by {
        EscapeEmpty();
      }
      assert s[0..] == s;
      while i < |s|
        invariant i <= |s| && at == start + |EscapeText(s[..i])|
        invariant at + |EscapeText(s[i..])| == end <= buffer.Length
        invariant buffer[..at] == old(buffer[..start]) + EscapeText(s[..i])
        invariant buffer[end..] == old(buffer[end..])
      {
        EscapeHead(s, i);
        EscapeSnoc(s, i);
        var c := EscapeChar(s[i]);
        assert buffer[at + |c|..][end - at - |c|..] == buffer[end..];
        Put(at, c);
        assert buffer[at + |c|..][end - at - |c|..] == buffer[end..];
        at := at + |c|;
        i := i + 1;
      }
      EscapeEmpty();
      assert s[i..] == [];
      assert s[..i] == s;
    }

    /** `print_number`. */
    method PrintNumeral(n: int) returns (ok: bool)
      requires Valid() && -EXACT <= n <= EXACT
      modifies this, buffer
      ensures Valid() && Limit() == old(Limit()) && (buffer == old(buffer) || (!noalloc && fresh(buffer)))
      ensures old(Text()) <= Text() && Beyond() == old(Beyond())
      ensures ok <==> old(offset) + NumberRoom(n) <= Limit()
      ensures ok ==> Shows(old(Text()), PrintNumber(n))
    {
      NumberFits(n);
      if -INT_MAX - 1 <= n <= INT_MAX {
        ok := Finish(21, PrintNumber(n));
      } else {
        ok := Finish(64, PrintNumber(n));
      }
    }

    /** `print_value`: succeeds exactly when the largest request fits, and then the text is there. */
    method PrintValue(v: Json, depth: nat, format: bool) returns (ok: bool)
      requires Valid() && Printable(v)
      modifies this, buffer
      ensures Valid() && Limit() == old(Limit()) && (buffer == old(buffer) || (!noalloc && fresh(buffer)))
      ensures old(Text()) <= Text() && Beyond() == old(Beyond())
      ensures ok <==> old(offset) + Need(v, depth, format) <= Limit()
      ensures ok ==> Shows(old(Text()), Print(v, depth, format))
      decreases v, 1
    {
      hide NeedItems, NeedMembers, PrintItems, PrintMembers, PrintNumber, EscapeText, Text, Beyond, Shows;
      match v
      case Null => ok := Finish(5, "null");
      case False => ok := Finish(6, "false");
      case True => ok := Finish(5, "true");
      case Number(n) => ok := PrintNumeral(n);
      case String(s) => ok := PrintString(s);
      case Array(items) => ok := PrintArray(items, depth, format);
      case Object(ms) =>
        ok := PrintObject(ms, depth, format);
        assert Brace(format) + PrintMembers(ms, depth, format) + Unbrace(depth, format) == Print(v, depth, format);
    }

    /** `print_array`. */
    method PrintArray(items: seq<Json>, depth: nat, format: bool) returns (ok: bool)
      requires Valid() && Printable(Array(items))
      modifies this, buffer
      ensures Valid() && Limit() == old(Limit()) && (buffer == old(buffer) || (!noalloc && fresh(buffer)))
      ensures old(Text()) <= Text() && Beyond() == old(Beyond())
      ensures ok <==> old(offset) + 1 + NeedItems(items, depth, format) <= Limit()
      ensures ok ==> Shows(old(Text()), "[" + PrintItems(items, depth, format) + "]")
      decreases items, 1
    {
      hide NeedItems, PrintItems, Text, Beyond, Shows;
      ghost var before, body := Text(), PrintItems(items, depth, format);
      ok := Advance(1, "[");
      if !ok {
        return;
      }
      ok := PrintElements(items, depth, format);
      if !ok {
        return;
      }
      ok := Finish(2, "]");
      if ok {
        Assoc(before, "[", body);
        ShowsJoined(before, "[" + body, "]");
      }
    }

    /** The loop of `print_array`; behind it there must be room for the closing bracket. */
    method PrintElements(items: seq<Json>, depth: nat, format: bool) returns (ok: bool)
      requires Valid() && Printable(Array(items))
      modifies this, buffer
      ensures Valid() && Limit() == old(Limit()) && (buffer == old(buffer) || (!noalloc && fresh(buffer)))
      ensures old(Text()) <= Text() && Beyond() == old(Beyond())
      ensures ok && offset + 2 <= Limit() <==> old(offset) + NeedItems(items, depth, format) <= Limit()
      ensures ok ==> Text() == old(Text()) + PrintItems(items, depth, format)
      decreases items, 0
    {
      hide Need, NeedItems, Print, PrintItems, Text, Beyond, Shows, Limit, Comma;
      ghost var before, done := Text(), "";
      var i := 0;
      ok := true;
      assert items[0..] == items && before + "" == before;
      while i < |items|
        invariant i <= |items| && ok
        invariant Valid() && Limit() == old(Limit()) && (buffer == old(buffer) || (!noalloc && fresh(buffer)))
        invariant Text() == before + done && Beyond() == old(Beyond())
        invariant done + PrintItems(items[i..], depth, format) == PrintItems(items, depth, format)
        invariant old(offset) + NeedItems(items, depth, format) <= Limit() <==>
          offset + NeedItems(items[i..], depth, format) <= Limit()
      {
        NeedItemsStep(items, i, depth, format);
        var more := i + 1 < |items|;
        ghost var text := Print(items[i], depth + 1, format) + if more then Comma(format) else "";
        ok := PrintElement(items[i], depth, format, more);
        if !ok {
          return;
        }
        Assoc(before, done, text);
        Assoc(done, text, PrintItems(items[i + 1..], depth, format));
        done := done + text;
        i := i + 1;
      }
      ListEnd(depth, format);
      assert items[i..] == [] && done + [] == done;
    }

    /** One turn of the loop in `print_array`. */
    method PrintElement(v: Json, depth: nat, format: bool, more: bool) returns (ok: bool)
      requires Valid() && Printable(v)
      modifies this, buffer
      ensures Valid() && Limit() == old(Limit()) && (buffer == old(buffer) || (!noalloc && fresh(buffer)))
      ensures old(Text()) <= Text() && Beyond() == old(Beyond())
      ensures ok <==>
        old(offset) + Max(Need(v, depth + 1, format),
                          if more then |Print(v, depth + 1, format)| + |Comma(format)| + 1 else 0) <= Limit()
      ensures ok ==> Text() == old(Text()) + (Print(v, depth + 1, format) + if more then Comma(format) else "")
      decreases v, 2
    {
      hide Need, Print, Printable, Text, Beyond, Shows;
      ghost var before, text := Text(), Print(v, depth + 1, format);
      PrintNulFree(v, depth + 1, format);
      ok := PrintValue(v, depth + 1, format);
      if ok {
        UpdateOffset(before, text);
        if more {
          ok := Advance(|Comma(format)| + 1, Comma(format));
          Assoc(before, text, Comma(format));
        } else {
          assert text + "" == text;
        }
      }
    }

    /** `print_object`. */
    method PrintObject(ms: seq<Member>, depth: nat, format: bool) returns (ok: bool)
      requires Valid() && Printable(Object(ms))
      modifies this, buffer
      ensures Valid() && Limit() == old(Limit()) && (buffer == old(buffer) || (!noalloc && fresh(buffer)))
      ensures old(Text()) <= Text() && Beyond() == old(Beyond())
      ensures ok <==> old(offset) + (if format then 2 else 1) + NeedMembers(ms, depth, format) <= Limit()
      ensures ok ==> Shows(old(Text()), Brace(format) + PrintMembers(ms, depth, format) + Unbrace(depth, format))
      decreases ms, 1
    {
      hide NeedMembers, PrintMembers, Text, Beyond, Shows;
      ghost var before, body := Text(), PrintMembers(ms, depth, format);
      ok := Advance(|Brace(format)| + 1, Brace(format));
      if !ok {
        return;
      }
      ok := PrintEntries(ms, depth, format);
      if !ok {
        return;
      }
      ok := Finish(if format then depth + 2 else 2, Unbrace(depth, format));
      if ok {
        Assoc(before, Brace(format), body);
        ShowsJoined(before, Brace(format) + body, Unbrace(depth, format));
      }
    }

    /** The loop of `print_object`; behind it there must be room for the closing line. */
    method PrintEntries(ms: seq<Member>, depth: nat, format: bool) returns (ok: bool)
      requires Valid() && Printable(Object(ms))
      modifies this, buffer
      ensures Valid() && Limit() == old(Limit()) && (buffer == old(buffer) || (!noalloc && fresh(buffer)))
      ensures old(Text()) <= Text() && Beyond() == old(Beyond())
      ensures ok && offset + (if format then depth + 2 else 2) <= Limit() <==>
        old(offset) + NeedMembers(ms, depth, format) <= Limit()
      ensures ok ==> Text() == old(Text()) + PrintMembers(ms, depth, format)
      decreases ms, 0
    {
      hide Need, NeedMembers, Print, PrintMembers, PrintMember, MemberHead, MemberEnd, Text, Beyond, Shows, Limit;
      ghost var before, done := Text(), "";
      var i := 0;
      ok := true;
      assert ms[0..] == ms && before + "" == before;
      while i < |ms|
        invariant i <= |ms| && ok
        invariant Valid() && Limit() == old(Limit()) && (buffer == old(buffer) || (!noalloc && fresh(buffer)))
        invariant Text() == before + done && Beyond() == old(Beyond())
        invariant done + PrintMembers(ms[i..], depth, format) == PrintMembers(ms, depth, format)
        invariant old(offset) + NeedMembers(ms, depth, format) <= Limit() <==>
          offset + NeedMembers(ms[i..], depth, format) <= Limit()
      {
        NeedMembersStep(ms, i, depth, format);
        ghost var text := PrintMember(ms[i], depth, format) + MemberEnd(i + 1 < |ms|, format);
        ok := PrintEntry(ms[i], depth, format, i + 1 < |ms|);
        if !ok {
          return;
        }
        Assoc(before, done, text);
        Assoc(done, text, PrintMembers(ms[i + 1..], depth, format));
        done := done + text;
        i := i + 1;
      }
      ListEnd(depth, format);
      assert ms[i..] == [] && done + [] == done;
    }

    /** One turn of the loop in `print_object`. */
    method PrintEntry(m: Member, depth: nat, format: bool, more: bool) returns (ok: bool)
      requires Valid() && NulFree(m.key) && Printable(m.value)
      modifies this, buffer
      ensures Valid() && Limit() == old(Limit()) && (buffer == old(buffer) || (!noalloc && fresh(buffer)))
      ensures old(Text()) <= Text() && Beyond() == old(Beyond())
      ensures ok <==> old(offset) + MemberHead(m, depth, format) + NeedMember(m, depth, format, more, 1) <= Limit()
      ensures ok ==> Text() == old(Text()) + (PrintMember(m, depth, format) + MemberEnd(more, format))
      decreases m, 0
    {
      hide Need, Print, Printable, Quoted, Text, Beyond, Shows;
      ghost var before, text := Text(), Print(m.value, depth + 1, format);
      ok := PrintKey(m.key, depth, format);
      if ok {
        ok := PrintWithEnd(m.value, depth, format, MemberEnd(more, format));
        Assoc(before, KeyText(m.key, depth, format), text + MemberEnd(more, format));
        Assoc(KeyText(m.key, depth, format), text, MemberEnd(more, format));
      }
    }

    /** The value of a member and what ends its line. */
    method PrintWithEnd(v: Json, depth: nat, format: bool, end: string) returns (ok: bool)
      requires Valid() && Printable(v)
      modifies this, buffer
      ensures Valid() && Limit() == old(Limit()) && (buffer == old(buffer) || (!noalloc && fresh(buffer)))
      ensures old(Text()) <= Text() && Beyond() == old(Beyond())
      ensures ok <==>
        old(offset) + Max(Need(v, depth + 1, format), |Print(v, depth + 1, format)| + |end| + 1) <= Limit()
      ensures ok ==> Text() == old(Text()) + (Print(v, depth + 1, format) + end)
      decreases v, 2
    {
      hide Need, Print, Printable, Text, Beyond, Shows;
      ghost var before, text := Text(), Print(v, depth + 1, format);
      PrintNulFree(v, depth + 1, format);
      ok := PrintValue(v, depth + 1, format);
      if ok {
        UpdateOffset(before, text);
        ok := Advance(|end| + 1, end);
        Assoc(before, text, end);
      }
    }

    /** Indentation, key and colon in `print_object`. */
    method PrintKey(key: string, depth: nat, format: bool) returns (ok: bool)
      requires Valid() && NulFree(key)
      modifies this, buffer
      ensures Valid() && Limit() == old(Limit()) && (buffer == old(buffer) || (!noalloc && fresh(buffer)))
      ensures old(Text()) <= Text() && Beyond() == old(Beyond())
      ensures ok <==> old(offset) + (if format then depth + 1 else 0) + |Quoted(key)| + |Colon(format)| <= Limit()
      ensures ok ==> Text() == old(Text()) + KeyText(key, depth, format)
    {
      hide Text, Beyond, Shows;
      ghost var before := Text();
      var indent := if format then Tabs(depth + 1) else "";
      assert before + "" == before;
      if format {
        ok := Advance(depth + 1, indent);
        if !ok {
          return;
        }
      }
      QuotedNulFree(key);
      ok := PrintString(key);
      if !ok {
        return;
      }
      UpdateOffset(before + indent, Quoted(key));
      ok := Advance(|Colon(format)|, Colon(format));
      Assoc(before, indent, Quoted(key));
      Assoc(before, indent + Quoted(key), Colon(format));
    }
  }

  function KeyText(key: string, depth: nat, format: bool): (r: string) {
    (if format then Tabs(depth + 1) else "") + Quoted(key) + Colon(format)
  }

  lemma Assoc(a: string, b: string, c: string)
    ensures a + b + c == a + (b + c)
  {
  }

  /** One element, its comma and the rest. */
  lemma NeedItemsStep(items: seq<Json>, i: nat, depth: nat, format: bool)
    requires i < |items|
    ensures var text, comma := Print(items[i], depth + 1, format), if i + 1 < |items| then Comma(format) else "";
      && PrintItems(items[i..], depth, format) == text + comma + PrintItems(items[i + 1..], depth, format)
      && NeedItems(items[i..], depth, format)
         == Max(Need(items[i], depth + 1, format), |text| + |comma| + NeedItems(items[i + 1..], depth, format))
  {
    hide Print, Need;
    assert items[i..][1..] == items[i + 1..];
  }

  function Brace(format: bool): (r: string) {
    "{" + (if format then "\n" else "")
  }

  function Unbrace(depth: nat, format: bool): (r: string) {
    (if format then Tabs(depth) else "") + "}"
  }

  /** One member, the end of its line and the rest. */
  lemma NeedMembersStep(ms: seq<Member>, i: nat, depth: nat, format: bool)
    requires i < |ms|
    ensures var rest := ms[i + 1..];
      && PrintMembers(ms[i..], depth, format)
         == PrintMember(ms[i], depth, format) + MemberEnd(i + 1 < |ms|, format) + PrintMembers(rest, depth, format)
      && NeedMembers(ms[i..], depth, format)
         == MemberHead(ms[i], depth, format)
            + NeedMember(ms[i], depth, format, i + 1 < |ms|, NeedMembers(rest, depth, format))
      && |PrintMember(ms[i], depth, format)|
         == MemberHead(ms[i], depth, format) + |Print(ms[i].value, depth + 1, format)|
  {
    hide Print, Need, Quoted;
    assert ms[i..][1..] == ms[i + 1..];
  }

  lemma ListEnd(depth: nat, format: bool)
    ensures PrintItems([], depth, format) == "" && NeedItems([], depth, format) == 2
    ensures PrintMembers([], depth, format) == "" && NeedMembers([], depth, format) == if format then depth + 2 else 2
  {
  }

  lemma {:induction false} NoEscapes(s: string)
    requires |EscapeText(s)| == |s|
    ensures EscapeText(s) == s
  {
    if s != [] {
      EscapeLonger(s[1..]);
      NoEscapes(s[1..]);
    }
  }

  lemma {:induction false} EscapeLonger(s: string)
    ensures |EscapeText(s)| >= |s|
  {
    if s != [] {
      EscapeLonger(s[1..]);
    }
  }

  lemma EscapeEmpty()
    ensures EscapeText([]) == []
  {
  }

  lemma EscapeHead(s: string, i: nat)
    requires i < |s|
    ensures EscapeText(s[i..]) == EscapeChar(s[i]) + EscapeText(s[i + 1..])
  {
    hide EscapeChar;
    assert s[i..][1..] == s[i + 1..];
  }

  lemma EscapeSnoc(s: string, i: nat)
    requires i < |s|
    ensures EscapeText(s[..i + 1]) == EscapeText(s[..i]) + EscapeChar(s[i])
  {
    EscapeJoin(s[..i], [s[i]]);
    assert s[..i + 1] == s[..i] + [s[i]];
    assert [s[i]][1..] == [];
  }

  lemma {:induction false} EscapeJoin(a: string, b: string)
    ensures EscapeText(a + b) == EscapeText(a) + EscapeText(b)
  {
    hide EscapeChar;
    if a == [] {
      assert a + b == b;
    } else {
      EscapeJoin(a[1..], b);
      assert (a + b)[1..] == a[1..] + b;
      Assoc(EscapeChar(a[0]), EscapeText(a[1..]), EscapeText(b));
    }
  }

  /** The first pass of `print_string_ptr`. */
  method CountEscapes(s: string) returns (escapes: nat)
    ensures |s| + escapes == |EscapeText(s)|
  {
    hide EscapeText;
    escapes := 0;
    assert EscapeText(s[..0]) == [] by {
      EscapeEmpty();
    }
    for i := 0 to |s|
      invariant i + escapes == |EscapeText(s[..i])|
    {
      EscapeSnoc(s, i);
      if s[i] in "\"\\\n\r\t" || s[i] == BS || s[i] == FF {
        escapes := escapes + 1;
      } else if s[i] as int < 32 {
        escapes := escapes + 5;
      }
    }
    assert s[..|s|] == s;
  }

  /** A new block that starts with the first `n` characters of another. */
  method Copied(block: array<char>, n: nat, size: nat) returns (copy: array<char>)
    requires n <= block.Length && n <= size
    ensures fresh(copy) && copy.Length == size && copy[..n] == block[..n]
  {
    copy := new char[size];
    for k := 0 to n
      invariant copy[..k] == block[..k]
    {
      copy[k] := block[k];
      assert copy[..k + 1] == copy[..k] + [copy[k]];
      assert block[..k + 1] == block[..k] + [block[k]];
    }
  }

  /** `print`, behind `cJSON_Print` and `cJSON_PrintUnformatted`: the text in a block of its own size. */
  method PrintDocument(v: Json, format: bool) returns (printed: array?<char>)
    requires Printable(v)
    ensures printed != null <==> Need(v, 0, format) <= INT_MAX
    ensures printed != null ==> fresh(printed) && printed[..] == Print(v, 0, format) + "\0"
  {
    hide Need, Print, Printable;
    var storage := new char[256];
    var p := new Buffer(storage, 0, false);
    var ok := p.PrintValue(v, 0, format);
    if !ok {
      return null;
    }
    ghost var text := Print(v, 0, format);
    PrintNulFree(v, 0, format);
    p.UpdateOffset("", text);
    assert "" + text == text;
    var size := p.offset + 1;
    var n := Min(p.length, size);
    printed := Copied(p.buffer, n, size);
    assert printed[..n][..p.offset] == p.Text();
    printed[p.offset] := '\0';
    assert printed[..] == printed[..p.offset] + [printed[p.offset]];
  }

  /** `cJSON_PrintBuffered`: the growing buffer itself is handed out. */
  method PrintBuffered(v: Json, prebuffer: int, format: bool) returns (printed: array?<char>)
    requires Printable(v) && prebuffer <= INT_MAX
    ensures printed != null <==> 0 <= prebuffer && Need(v, 0, format) <= INT_MAX
    ensures printed != null ==> fresh(printed) && StartsWith(printed, Print(v, 0, format) + "\0")
  {
    hide Need, Print, Printable;
    if prebuffer < 0 {
      return null;
    }
    var storage := new char[prebuffer];
    var p := new Buffer(storage, prebuffer, false);
    var ok := p.PrintValue(v, 0, format);
    if !ok {
      return null;
    }
    p.ShownFirst(Print(v, 0, format));
    return p.buffer;
  }

  /** `cJSON_PrintPreallocated`: into the caller's storage or not at all. */
  method PrintPreallocated(v: Json, buf: array<char>, len: int, format: bool) returns (ok: bool)
    requires Printable(v) && len <= buf.Length && len <= INT_MAX
    modifies buf
    ensures ok <==> Need(v, 0, format) <= len
    ensures if len < 0 then buf[..] == old(buf[..]) else buf[len..] == old(buf[len..])
    ensures ok ==> StartsWith(buf, Print(v, 0, format) + "\0")
  {
    hide Need, Print, Printable;
    if len < 0 {
      return false;
    }
    var p := new Buffer(buf, len, true);
    ok := p.PrintValue(v, 0, format);
    if ok {
      p.ShownFirst(Print(v, 0, format));
    }
  }

  ghost predicate StartsWith(a: array<char>, s: string)
    reads a
  {
    |s| <= a.Length && a[..|s|] == s
  }

  /** A number asks for far more than its text: twelve characters hold any `int`, and fewer than 21 are refused. */
  lemma SmallNumberRefused(n: int, format: bool, len: nat)
    requires -INT_MAX - 1 <= n <= INT_MAX && len < 21
    ensures |Print(Number(n), 0, format)| < 12 && len < Need(Number(n), 0, format)
  {
    hide Digits, Pow;
    Powers();
    DigitsAtMost(if n < 0 then -n else n, 10);
  }
}
