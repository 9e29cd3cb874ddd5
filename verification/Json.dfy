/**
 A reader of JSON text without escapes: objects, arrays, strings, and bare tokens
 for numbers, `true` and `false`. It knows no key; members are looked up by name.
 */
module Json {
  import opened Text
  import opened Wrappers

  datatype Value = Bare(token: string) | Str(text: string) | Arr(items: seq<Value>) | Obj(members: seq<(string, Value)>)

  /** A string that can be taken as it stands: no quote, backslash or control character. */
  predicate Clean(text: string) {
    forall i :: 0 <= i < |text| ==> text[i] != '"' && text[i] != '\\' && text[i] >= ' '
  }

  /** How many characters come before the next comma or closing brace. */
  function TokenLength(s: string): (n: nat)
    ensures n <= |s| && (forall i :: 0 <= i < n ==> s[i] != ',' && s[i] != '}')
    ensures n < |s| ==> s[n] == ',' || s[n] == '}'
  {
    if s == "" || s[0] == ',' || s[0] == '}' then 0 else 1 + TokenLength(s[1..])
  }

  /** The rest of a string, after its opening quote, and what follows its closing one. */
  function ParseText(s: string): (r: Option<(string, string)>)
    ensures r.Some? ==> |r.value.1| < |s|
  {
    match CutAt(s, '"')
    case None => None
    case Some(p) => if Clean(p.0) then Some((p.0, p.1[1..])) else None
  }

  /** One item or more, to the closing bracket. */
  function ParseItems(s: string): (r: Option<(seq<Value>, string)>)
    ensures r.Some? ==> |r.value.1| < |s|
    decreases |s|, 2
  {
    match ParseValue(s)
    case None => None
    case Some(v) =>
      if v.1 == "" then None
      else if v.1[0] == ']' then Some(([v.0], v.1[1..]))
      else if v.1[0] != ',' then None
      else
        match ParseItems(v.1[1..])
        case None => None
        case Some(more) => Some(([v.0] + more.0, more.1))
  }

  function ParseValue(s: string): (r: Option<(Value, string)>)
    ensures r.Some? ==> |r.value.1| < |s|
    decreases |s|, 1
  {
    if s == "" then None
    else if s[0] == '"' then
      match ParseText(s[1..])
      case None => None
      case Some(p) => Some((Str(p.0), p.1))
    else if s[0] == '{' then
      if |s| > 1 && s[1] == '}' then Some((Obj([]), s[2..]))
      else
        match ParseMembers(s[1..])
        case None => None
        case Some(p) => Some((Obj(p.0), p.1))
    else if s[0] == '[' then
      if |s| > 1 && s[1] == ']' then Some((Arr([]), s[2..]))
      else
        match ParseItems(s[1..])
        case None => None
        case Some(p) => Some((Arr(p.0), p.1))
    else
      var n := TokenLength(s);
      if n == 0 then None else Some((Bare(s[..n]), s[n..]))
  }

  /** One member or more, to the closing brace. */
  function ParseMembers(s: string): (r: Option<(seq<(string, Value)>, string)>)
    ensures r.Some? ==> |r.value.1| < |s|
    decreases |s|, 0
  {
    if s == "" || s[0] != '"' then None
    else
      match ParseText(s[1..])
      case None => None
      case Some(key) =>
        if key.1 == "" || key.1[0] != ':' then None
        else
          match ParseValue(key.1[1..])
          case None => None
          case Some(v) =>
            if v.1 == "" then None
            else if v.1[0] == '}' then Some(([(key.0, v.0)], v.1[1..]))
            else if v.1[0] != ',' then None
            else
              match ParseMembers(v.1[1..])
              case None => None
              case Some(more) => Some(([(key.0, v.0)] + more.0, more.1))
  }

  /** The whole text as one value. */
  function Parse(s: string): Option<Value> {
    match ParseValue(s)
    case None => None
    case Some(p) => if p.1 == "" then Some(p.0) else None
  }

  /** The first member of that name. */
  function Lookup(members: seq<(string, Value)>, name: string): Option<Value> {
    if members == [] then None
    else if members[0].0 == name then Some(members[0].1)
    else Lookup(members[1..], name)
  }

  // Writing, and reading back.

  function Quoted(text: string): string {
    "\"" + (text + "\"")
  }

  function Member(key: string, value: string): string {
    "\"" + (key + ("\":" + value))
  }

  lemma Headed(c: string, rest: string)
    requires |c| == 1
    ensures (c + rest)[0] == c[0] && (c + rest)[1..] == rest
  {
  }

  lemma TextReadBack(text: string, rest: string)
    requires Clean(text)
    ensures ParseText(text + ("\"" + rest)) == Some((text, rest))
  {
    Headed("\"", rest);
    CutAtFound(text, '"', "\"" + rest);
  }

  lemma StringReadBack(text: string, rest: string)
    requires Clean(text)
    ensures ParseValue(Quoted(text) + rest) == Some((Str(text), rest))
  {
    hide ParseText;
    Assoc("\"", text + "\"", rest);
    Assoc(text, "\"", rest);
    Headed("\"", text + ("\"" + rest));
    TextReadBack(text, rest);
  }

  /** A token that does not begin like another kind of value. */
  predicate IsToken(t: string) {
    t != "" && ',' !in t && '}' !in t && t[0] !in {'"', '{', '['}
  }

  lemma {:induction false} TokenEnds(t: string, rest: string)
    requires ',' !in t && '}' !in t && rest != "" && (rest[0] == ',' || rest[0] == '}')
    ensures TokenLength(t + rest) == |t|
  {
    if t == "" {
      assert t + rest == rest;
    } else {
      assert (t + rest)[1..] == t[1..] + rest;
      TokenEnds(t[1..], rest);
    }
  }

  lemma TokenReadBack(t: string, rest: string)
    requires IsToken(t) && rest != "" && (rest[0] == ',' || rest[0] == '}')
    ensures ParseValue(t + rest) == Some((Bare(t), rest))
  {
    hide TokenLength;
    TokenEnds(t, rest);
    assert (t + rest)[..|t|] == t && (t + rest)[|t|..] == rest;
  }

  lemma MemberBegins(key: string, value: string, rest: string)
    requires Clean(key)
    ensures var s := Member(key, value) + rest;
            s != "" && s[0] == '"' && ParseText(s[1..]) == Some((key, ":" + (value + rest)))
  {
    hide ParseText;
    Assoc("\"", key + ("\":" + value), rest);
    Assoc(key, "\":" + value, rest);
    assert "\":" == "\"" + ":";
    Assoc("\":", value, rest);
    Assoc("\"", ":", value + rest);
    Headed("\"", key + ("\"" + (":" + (value + rest))));
    TextReadBack(key, ":" + (value + rest));
  }

  /** Reading a member: its value, and then either the end or more members. */
  lemma MemberReadBack(key: string, value: string, v: Value, rest: string)
    requires Clean(key) && ParseValue(value + rest) == Some((v, rest)) && rest != ""
    ensures rest[0] == '}' ==> ParseMembers(Member(key, value) + rest) == Some(([(key, v)], rest[1..]))
    ensures rest[0] == ',' ==>
              ParseMembers(Member(key, value) + rest) ==
              match ParseMembers(rest[1..]) { case None => None case Some(more) => Some(([(key, v)] + more.0, more.1)) }
  {
    hide ParseText; hide ParseValue;
    MemberBegins(key, value, rest);
    var s := Member(key, value) + rest;
    assert ParseText(s[1..]) == Some((key, ":" + (value + rest)));
    Headed(":", value + rest);
  }

  lemma ObjectIs(body: string)
    requires body != "" && body[0] == '"'
    ensures ParseValue("{" + body) ==
            match ParseMembers(body) { case None => None case Some(p) => Some((Obj(p.0), p.1)) }
  {
    hide ParseMembers;
    Headed("{", body);
  }
}
