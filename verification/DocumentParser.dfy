/** The parser as the source runs it: a pointer into the text that every step advances. */
module DocumentParser {
  import opened CStrings
  import opened JsonValue
  import opened Parser
  import opened StringParser

  /** `skip_whitespace`. */
  method SkipWhitespace(s: string) returns (r: string)
    requires NulFree(s)
    ensures r == SkipBlanks(s) && NulFree(r)
  {
    r := s;
    while CharAt(r, 0) != '\0' && CharAt(r, 0) <= ' '
      invariant NulFree(r) && SkipBlanks(r) == SkipBlanks(s)
      decreases |r|
    {
      r := r[1..];
    }
  }

  /** `parse_value`, `parse_array` and `parse_object`: the tree and the text behind it. */
  method ParseValueText(s: string) returns (r: Option<(Json, string)>)
    requires NulFree(s)
    ensures r == ParseValue(s)
    ensures r.Some? ==> NulFree(r.value.1)
    decreases |s|, 1
  {
    if "null" <= s {
      return Some((Null, s[4..]));
    }
    if "false" <= s {
      return Some((False, s[5..]));
    }
    if "true" <= s {
      return Some((True, s[4..]));
    }
    if CharAt(s, 0) == '\"' {
      var lit, _, _ := ParseLiteral(s);
      if lit.None? {
        return None;
      }
      return Some((String(lit.value.0), lit.value.1));
    }
    if CharAt(s, 0) == '-' || IsDigit(CharAt(s, 0)) {
      return ParseNumber(s);
    }
    if CharAt(s, 0) == '[' {
      r := ParseArrayText(s);
      return;
    }
    if CharAt(s, 0) == '{' {
      r := ParseObjectText(s);
      return;
    }
    return None;
  }

  /** The element loop; `u` is where the text stands and `vs` what has been read. */
  method ParseArrayText(s: string) returns (r: Option<(Json, string)>)
    requires NulFree(s) && s != []
    ensures r == ParseArray(s)
    ensures r.Some? ==> NulFree(r.value.1)
    decreases |s|, 0
  {
    hide ParseItems, ParseValue, SkipBlanks;
    var u := SkipWhitespace(s[1..]);
    if CharAt(u, 0) == ']' {
      return Some((Array([]), u[1..]));
    }
    ghost var all := ParseItems(u);
    var vs: seq<Json> := [];
    var more := true;
    assert all.Some? ==> [] + all.value.0 == all.value.0;
    while more
      invariant NulFree(u) && |u| < |s|
      invariant more ==> all == After(vs, ParseItems(u))
      invariant !more ==> all == Some((vs, u))
      decreases |u| + if more then 1 else 0
    {
      ItemsUnfold(u);
      u := SkipWhitespace(u);
      var item := ParseValueText(u);
      if item.None? {
        return None;
      }
      u := SkipWhitespace(item.value.1);
      more := CharAt(u, 0) == ',';
      if more {
        u := u[1..];
        AfterCons(vs, item.value.0, ParseItems(u));
      }
      vs := vs + [item.value.0];
    }
    if CharAt(u, 0) != ']' {
      return None;
    }
    return Some((Array(vs), u[1..]));
  }

  /** The result of a list parse once `vs` is put in front. */
  ghost function After<T>(vs: seq<T>, r: Option<(seq<T>, string)>): (q: Option<(seq<T>, string)>) {
    match r
    case Some(p) => Some((vs + p.0, p.1))
    case None => None
  }

  lemma AfterCons<T>(vs: seq<T>, v: T, r: Option<(seq<T>, string)>)
    ensures After(vs, After([v], r)) == After(vs + [v], r)
  {
    if r.Some? {
      assert vs + ([v] + r.value.0) == vs + [v] + r.value.0;
    }
  }

  /** One turn of the element loop. */
  lemma ItemsUnfold(s: string)
    ensures var v := ParseValue(SkipBlanks(s));
      if v.None? then ParseItems(s) == None
      else
        var u := SkipBlanks(v.value.1);
        ParseItems(s) ==
          if u != [] && u[0] == ',' then After([v.value.0], ParseItems(u[1..])) else Some(([v.value.0], u))
  {
    hide ParseValue, SkipBlanks;
  }

  /** One turn of the member loop. */
  lemma MembersUnfold(s: string)
    ensures var m := ParseMember(SkipBlanks(s));
      if m.None? then ParseMembers(s) == None
      else
        var u := SkipBlanks(m.value.1);
        ParseMembers(s) ==
          if u != [] && u[0] == ',' then After([m.value.0], ParseMembers(u[1..])) else Some(([m.value.0], u))
  {
    hide ParseMember, SkipBlanks;
  }

  method ParseObjectText(s: string) returns (r: Option<(Json, string)>)
    requires NulFree(s) && s != []
    ensures r == ParseObject(s)
    ensures r.Some? ==> NulFree(r.value.1)
    decreases |s|, 0
  {
    hide ParseMembers, ParseMember, SkipBlanks;
    var u := SkipWhitespace(s[1..]);
    if CharAt(u, 0) == '}' {
      return Some((Object([]), u[1..]));
    }
    ghost var all := ParseMembers(u);
    var ms: seq<Member> := [];
    var more := true;
    assert all.Some? ==> [] + all.value.0 == all.value.0;
    while more
      invariant NulFree(u) && |u| < |s|
      invariant more ==> all == After(ms, ParseMembers(u))
      invariant !more ==> all == Some((ms, u))
      decreases |u| + if more then 1 else 0
    {
      MembersUnfold(u);
      u := SkipWhitespace(u);
      var member := ParseMemberText(u);
      if member.None? {
        return None;
      }
      u := SkipWhitespace(member.value.1);
      more := CharAt(u, 0) == ',';
      if more {
        u := u[1..];
        AfterCons(ms, member.value.0, ParseMembers(u));
      }
      ms := ms + [member.value.0];
    }
    if CharAt(u, 0) != '}' {
      return None;
    }
    return Some((Object(ms), u[1..]));
  }

  method ParseMemberText(s: string) returns (r: Option<(Member, string)>)
    requires NulFree(s)
    ensures r == ParseMember(s)
    ensures r.Some? ==> NulFree(r.value.1)
    decreases |s|, 2
  {
    var name, _, _ := ParseLiteral(s);
    if name.None? {
      return None;
    }
    var u := SkipWhitespace(name.value.1);
    if CharAt(u, 0) != ':' {
      return None;
    }
    u := SkipWhitespace(u[1..]);
    var v := ParseValueText(u);
    if v.None? {
      return None;
    }
    return Some((Member(name.value.0, v.value.0), v.value.1));
  }

  /** `cJSON_ParseWithOpts`; `cJSON_Parse` does not require the end. */
  method ParseDocument(text: string, terminated: bool) returns (r: Option<(Json, string)>)
    requires NulFree(text)
    ensures r == ParseText(text, terminated)
  {
    var s := SkipWhitespace(text);
    var v := ParseValueText(s);
    if v.None? {
      return None;
    }
    var end := v.value.1;
    if terminated {
      end := SkipWhitespace(end);
      if end != [] {
        return None;
      }
    }
    return Some((v.value.0, end));
  }
}
