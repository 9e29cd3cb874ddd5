/** A reader of the detections payload that knows the members by name, and when it recovers what was printed. */
module DetectionsReader {
  import opened Json
  import opened Text
  import opened Words
  import opened Wrappers
  import opened Detections

  datatype Message = Message(seqNo: nat, count: nat, objects: seq<Detected>, truncated: bool)

  // The reader.

  function NatOf(v: Option<Value>): Option<nat> {
    if v.Some? && v.value.Bare? then
      match ParseNat(v.value.token)
      case Some(p) => if p.1 == "" then Some(p.0) else None
      case None => None
    else None
  }

  function IntOf(v: Option<Value>): Option<int> {
    if v.Some? && v.value.Bare? then
      match ParseInt(v.value.token)
      case Some(p) => if p.1 == "" then Some(p.0) else None
      case None => None
    else None
  }

  /** One entry of `objects`. */
  function ReadObject(v: Value): Option<Detected> {
    if !v.Obj? then None
    else
      var name, conf := Lookup(v.members, "label"), Lookup(v.members, "conf");
      var x, y := IntOf(Lookup(v.members, "x")), IntOf(Lookup(v.members, "y"));
      var w, h := IntOf(Lookup(v.members, "w")), IntOf(Lookup(v.members, "h"));
      if name.Some? && name.value.Str? && conf.Some? && conf.value.Bare? && x.Some? && y.Some? && w.Some?
          && h.Some? then
        Some(Detected(name.value.text, conf.value.token, x.value, y.value, w.value, h.value))
      else None
  }

  function ReadObjects(items: seq<Value>): Option<seq<Detected>> {
    if items == [] then Some([])
    else
      match ReadObject(items[0])
      case None => None
      case Some(o) =>
        match ReadObjects(items[1..])
        case None => None
        case Some(more) => Some([o] + more)
  }

  /** The members of a message, version 1. */
  function MessageOf(v: Value): Option<Message> {
    if !v.Obj? then None
    else
      var seqNo, count := NatOf(Lookup(v.members, "seq")), NatOf(Lookup(v.members, "count"));
      var objects, truncated := Lookup(v.members, "objects"), Lookup(v.members, "truncated");
      if Lookup(v.members, "v") != Some(Bare("1")) || seqNo.None? || count.None? then None
      else if objects.None? || !objects.value.Arr? || truncated !in {Some(Bare("true")), Some(Bare("false"))} then None
      else
        match ReadObjects(objects.value.items)
        case None => None
        case Some(os) => Some(Message(seqNo.value, count.value, os, truncated == Some(Bare("true"))))
  }

  function ReadMessage(payload: string): Option<Message> {
    match Parse(payload)
    case None => None
    case Some(v) => MessageOf(v)
  }

  // What it makes of printed objects.

  predicate Readable(o: Detected) {
    Clean(o.name) && IsToken(o.confidence)
  }

  ghost predicate AllReadable(os: seq<Detected>) {
    forall i :: 0 <= i < |os| ==> Readable(os[i])
  }

  lemma IntTextIsToken(n: int)
    ensures IsToken(IntText(n))
  {
    hide NatText;
  }

  lemma NatTextIsToken(n: nat)
    ensures IsToken(NatText(n))
  {
    hide NatText;
  }

  lemma IntTextReads(n: int)
    ensures IntOf(Some(Bare(IntText(n)))) == Some(n)
  {
    hide IntText; hide ParseInt;
    ParseIntText(n, "");
    assert IntText(n) + "" == IntText(n);
  }

  lemma NatTextReads(n: nat)
    ensures NatOf(Some(Bare(NatText(n)))) == Some(n)
  {
    hide NatText; hide ParseNat;
    ParseNatText(n, "");
    assert NatText(n) + "" == NatText(n);
  }

  /** An object as a value: which text stands under which name. */
  function Json6(o: Detected): (v: Value)
    ensures v.Obj? && |v.members| == 6
  {
    Obj([("label", Str(o.name)), ("conf", Bare(o.confidence)), ("x", Bare(IntText(o.x))), ("y", Bare(IntText(o.y))),
         ("w", Bare(IntText(o.w))), ("h", Bare(IntText(o.h)))])
  }

  lemma {:induction false} LookupAt(members: seq<(string, Value)>, i: nat)
    requires i < |members| && forall j :: 0 <= j < i ==> members[j].0 != members[i].0
    ensures Lookup(members, members[i].0) == Some(members[i].1)
  {
    if i == 0 {
    } else {
      LookupAt(members[1..], i - 1);
    }
  }

  /** The names of an object's members all differ. */
  lemma NamesDiffer(names: seq<string>)
    requires names == ["label", "conf", "x", "y", "w", "h"] || names == ["v", "seq", "count", "objects", "truncated"]
    ensures forall i, j :: 0 <= i < j < |names| ==> names[i] != names[j]
  {
    var x, y, w, h, l, c := "x", "y", "w", "h", "label", "conf";
    assert x[0] == 'x' && y[0] == 'y' && w[0] == 'w' && h[0] == 'h' && l[0] == 'l' && c[0] == 'c';
    var v, s, k, o, t := "v", "seq", "count", "objects", "truncated";
    assert v[0] == 'v' && s[0] == 's' && k[0] == 'c' && o[0] == 'o' && t[0] == 't';
    forall i, j | 0 <= i < j < |names| ensures names[i][0] != names[j][0] {
    }
  }

  lemma ObjectMeans(o: Detected)
    ensures ReadObject(Json6(o)) == Some(o)
  {
    hide IntText; hide IntOf; hide Lookup;
    IntTextReads(o.x);
    IntTextReads(o.y);
    IntTextReads(o.w);
    IntTextReads(o.h);
    var ms := Json6(o).members;
    var names := ["label", "conf", "x", "y", "w", "h"];
    NamesDiffer(names);
    forall i | 0 <= i < 6 ensures Lookup(ms, names[i]) == Some(ms[i].1) {
      assert forall j :: 0 <= j < 6 ==> ms[j].0 == names[j];
      LookupAt(ms, i);
    }
    assert names[0] == "label" && names[1] == "conf" && names[2] == "x" && names[3] == "y" && names[4] == "w"
        && names[5] == "h";
  }

  // How objects are printed, in terms of names and values.

  lemma KeyShapes()
    ensures LabelKey() == "{" + ("\"" + ("label" + "\":\""))
    ensures ConfKey() == "\"" + ("," + ("\"" + ("conf" + "\":")))
    ensures XKey() == "," + ("\"" + ("x" + "\":"))
    ensures YKey() == "," + ("\"" + ("y" + "\":"))
    ensures WKey() == "," + ("\"" + ("w" + "\":"))
    ensures HKey() == "," + ("\"" + ("h" + "\":"))
  {
  }

  /** A comma, a key and its value are a comma and a member. */
  lemma KeyedShape(key: string, name: string, value: string, rest: string)
    requires key == "," + ("\"" + (name + "\":"))
    ensures (key + value) + rest == "," + (Member(name, value) + rest)
  {
    assert key + value == "," + Member(name, value);
    Assoc(",", Member(name, value), rest);
  }

  /** A numeric field is a comma and a member. */
  lemma FieldShape(key: string, name: string, v: int, rest: string)
    requires key == "," + ("\"" + (name + "\":"))
    ensures Field(key, v) + rest == "," + (Member(name, IntText(v)) + rest)
  {
    hide IntText;
    hide Member;
    KeyedShape(key, name, IntText(v), rest);
  }

  /** The label's key, its text, and the comma before the next member. */
  lemma LabelShape(name: string, conf: string, rest: string)
    ensures (LabelKey() + name) + ((ConfKey() + conf) + rest) ==
            "{" + (Member("label", Quoted(name)) + ("," + (Member("conf", conf) + rest)))
  {
    hide LabelKey; hide ConfKey;
    KeyShapes();
    assert LabelKey() + name == "{" + ("\"" + ("label" + ("\":" + ("\"" + name)))) by {
      assert "\":\"" == "\":" + "\"";
    }
    assert ConfKey() + conf == "\"" + ("," + Member("conf", conf));
    assert (ConfKey() + conf) + rest == "\"" + ("," + (Member("conf", conf) + rest));
    var more := "," + (Member("conf", conf) + rest);
    assert Quoted(name) == ("\"" + name) + "\"";
    assert Member("label", Quoted(name)) == ("\"" + ("label" + ("\":" + ("\"" + name)))) + "\"";
    var front := "\"" + ("label" + ("\":" + ("\"" + name)));
    assert ("{" + front) + ("\"" + more) == "{" + ((front + "\"") + more);
  }

  lemma PlainPrints(name: string)
    requires forall i :: 0 <= i < |name| ==> name[i] != NUL
    ensures Printed(name) == name
  {
    if name == "" {
    } else {
      PlainPrints(name[1..]);
      assert [name[0]] + name[1..] == name;
    }
  }

  /** Reading one member whose value is a number. */
  lemma NumberMember(name: string, n: int, rest: string)
    requires Clean(name) && rest != "" && (rest[0] == ',' || rest[0] == '}')
    ensures rest[0] == '}'
        ==> ParseMembers(Member(name, IntText(n)) + rest) == Some(([(name, Bare(IntText(n)))], rest[1..]))
    ensures rest[0] == ',' ==>
              ParseMembers(Member(name, IntText(n)) + rest) ==
              match ParseMembers(rest[1..])
                case None => None
                case Some(more) => Some(([(name, Bare(IntText(n)))] + more.0, more.1))
  {
    hide IntText; hide ParseMembers; hide ParseValue; hide Member;
    IntTextIsToken(n);
    TokenReadBack(IntText(n), rest);
    MemberReadBack(name, IntText(n), Bare(IntText(n)), rest);
  }

  /** From the last member back to the first: each is read, and then the rest. */
  lemma BoxMembers(o: Detected, rest: string)
    ensures var h := Member("h", IntText(o.h)) + ("}" + rest);
            var w := Member("w", IntText(o.w)) + ("," + h);
            var y := Member("y", IntText(o.y)) + ("," + w);
            var x := Member("x", IntText(o.x)) + ("," + y);
            && (Field(XKey(), o.x) + (Field(YKey(), o.y) + (Field(WKey(), o.w) + (Field(HKey(), o.h) + "}")))) + rest
                == "," + x
            && ParseMembers(x) == Some(([("x", Bare(IntText(o.x))), ("y", Bare(IntText(o.y))),
                ("w", Bare(IntText(o.w))),
                                         ("h", Bare(IntText(o.h)))], rest))
  {
    hide IntText; hide Field; hide Member; hide ParseMembers; hide ParseValue;
    hide XKey; hide YKey; hide WKey; hide HKey;
    var h := Member("h", IntText(o.h)) + ("}" + rest);
    var w := Member("w", IntText(o.w)) + ("," + h);
    var y := Member("y", IntText(o.y)) + ("," + w);
    KeyShapes();
    var fx, fy, fw, fh := Field(XKey(), o.x), Field(YKey(), o.y), Field(WKey(), o.w), Field(HKey(), o.h);
    Assoc(fh, "}", rest);
    Assoc(fw, fh + "}", rest);
    Assoc(fy, fw + (fh + "}"), rest);
    Assoc(fx, fy + (fw + (fh + "}")), rest);
    FieldShape(HKey(), "h", o.h, "}" + rest);
    FieldShape(WKey(), "w", o.w, "," + h);
    FieldShape(YKey(), "y", o.y, "," + w);
    FieldShape(XKey(), "x", o.x, "," + y);
    NumberMember("h", o.h, "}" + rest);
    Headed("}", rest);
    NumberMember("w", o.w, "," + h);
    Headed(",", h);
    NumberMember("y", o.y, "," + w);
    Headed(",", w);
    NumberMember("x", o.x, "," + y);
    Headed(",", y);
    var mx, my := ("x", Bare(IntText(o.x))), ("y", Bare(IntText(o.y)));
    var mw, mh := ("w", Bare(IntText(o.w))), ("h", Bare(IntText(o.h)));
    assert [mw] + [mh] == [mw, mh] && [my] + [mw, mh] == [my, mw, mh] && [mx] + [my, mw, mh] == [mx, my, mw, mh];
  }

  /** A printed object reads back as the value that has its fields under their names. */
  lemma ObjectReadBack(o: Detected, rest: string)
    requires Readable(o)
    ensures ParseValue(ObjectText(o) + rest) == Some((Json6(o), rest))
    ensures ReadObject(Json6(o)) == Some(o)
  {
    hide IntText; hide Field; hide Member; hide ParseMembers; hide ParseValue; hide Quoted;
    hide XKey; hide YKey; hide WKey; hide HKey; hide LabelKey; hide ConfKey; hide ReadObject; hide Printed;
    ObjectMeans(o);
    PlainPrints(o.name);
    BoxMembers(o, rest);
    var box := Field(XKey(), o.x) + (Field(YKey(), o.y) + (Field(WKey(), o.w) + (Field(HKey(), o.h) + "}")));
    var h := Member("h", IntText(o.h)) + ("}" + rest);
    var w := Member("w", IntText(o.w)) + ("," + h);
    var y := Member("y", IntText(o.y)) + ("," + w);
    var x := Member("x", IntText(o.x)) + ("," + y);
    Assoc(ConfKey() + o.confidence, box, rest);
    Assoc(LabelKey() + o.name, (ConfKey() + o.confidence) + box, rest);
    LabelShape(o.name, o.confidence, "," + x);
    var conf := Member("conf", o.confidence) + ("," + x);
    var body := Member("label", Quoted(o.name)) + ("," + conf);
    assert ObjectText(o) + rest == "{" + body;
    Headed(",", x);
    TokenReadBack(o.confidence, "," + x);
    MemberReadBack("conf", o.confidence, Bare(o.confidence), "," + x);
    Headed(",", conf);
    StringReadBack(o.name, "," + conf);
    MemberReadBack("label", Quoted(o.name), Str(o.name), "," + conf);
    MemberBegins("label", Quoted(o.name), "," + conf);
    var ms := Json6(o).members;
    assert [ms[1]] + ms[2..] == ms[1..] && [ms[0]] + ms[1..] == ms;
    assert ms[2..] == [("x", Bare(IntText(o.x))), ("y", Bare(IntText(o.y))), ("w", Bare(IntText(o.w))),
                       ("h", Bare(IntText(o.h)))];
    ObjectIs(body);
  }

  function Values(os: seq<Detected>): (vs: seq<Value>)
    ensures |vs| == |os| && forall i :: 0 <= i < |os| ==> vs[i] == Json6(os[i])
  {
    seq(|os|, i requires 0 <= i < |os| => Json6(os[i]))
  }

  lemma {:induction false} ValuesMean(os: seq<Detected>)
    ensures ReadObjects(Values(os)) == Some(os)
  {
    hide ReadObject;
    if os == [] {
    } else {
      ObjectMeans(os[0]);
      ValuesMean(os[1..]);
      assert Values(os)[1..] == Values(os[1..]);
      assert [os[0]] + os[1..] == os;
    }
  }

  lemma {:induction false} ItemsReadBack(os: seq<Detected>, rest: string)
    requires AllReadable(os) && os != []
    ensures ParseItems(ObjectsText(os) + ("]" + rest)) == Some((Values(os), rest))
    decreases |os|
  {
    hide ObjectText; hide ParseValue; hide ReadObject; hide Json6;
    var o, more := os[0], os[1..];
    var next := MoreText(more) + ("]" + rest);
    Assoc(ObjectText(o), MoreText(more), "]" + rest);
    ObjectReadBack(o, next);
    Headed("]", rest);
    if more == [] {
      assert next == "]" + rest;
      assert Values(os) == [Json6(o)];
    } else {
      ItemsReadBack(more, rest);
      assert MoreText(more) == "," + ObjectsText(more);
      Assoc(",", ObjectsText(more), "]" + rest);
      Headed(",", ObjectsText(more) + ("]" + rest));
      assert Values(os) == [Json6(o)] + Values(more);
    }
  }

  lemma BeginsWithBrace(os: seq<Detected>)
    requires os != []
    ensures ObjectsText(os) != "" && ObjectsText(os)[0] == '{'
  {
  }

  /** The array of printed objects reads back as their values. */
  lemma ArrayReadBack(os: seq<Detected>, rest: string)
    requires AllReadable(os)
    ensures ParseValue(("[" + (ObjectsText(os) + "]")) + rest) == Some((Arr(Values(os)), rest))
  {
    hide ObjectText; hide MoreText; hide ParseItems; hide Json6;
    Assoc("[", ObjectsText(os) + "]", rest);
    Assoc(ObjectsText(os), "]", rest);
    Headed("[", ObjectsText(os) + ("]" + rest));
    if os == [] {
      assert ObjectsText(os) + ("]" + rest) == "]" + rest;
      Headed("]", rest);
      assert Values(os) == [];
      assert ("[" + ("]" + rest))[2..] == rest;
    } else {
      ItemsReadBack(os, rest);
      BeginsWithBrace(os);
    }
  }

  // The whole message.

  /** What the tail begins with, and what stands after the list's end. */
  lemma OuterShapes()
    ensures SeqKey() == "{" + (Member("v", "1") + ("," + ("\"" + ("seq" + "\":"))))
    ensures CountKey() == "," + ("\"" + ("count" + "\":"))
    ensures ObjectsKey() == "," + ("\"" + ("objects" + ("\":" + "[")))
    ensures TruncatedKey() == "]" + ("," + ("\"" + ("truncated" + "\":")))
  {
  }

  lemma VersionShape(value: string, rest: string)
    ensures (SeqKey() + value) + rest == "{" + (Member("v", "1") + ("," + (Member("seq", value) + rest)))
  {
    hide SeqKey;
    OuterShapes();
    assert SeqKey() + value == "{" + (Member("v", "1") + ("," + Member("seq", value)));
    Assoc("{", Member("v", "1") + ("," + Member("seq", value)), rest);
    Assoc(Member("v", "1"), "," + Member("seq", value), rest);
    Assoc(",", Member("seq", value), rest);
  }

  lemma ListShape(list: string, rest: string)
    ensures ObjectsKey() + (list + ("]" + rest)) == "," + (Member("objects", "[" + (list + "]")) + rest)
  {
    hide ObjectsKey;
    OuterShapes();
    assert ObjectsKey() + (list + "]") == "," + Member("objects", "[" + (list + "]"));
    Assoc(list, "]", rest);
    Assoc(ObjectsKey(), list + "]", rest);
    Assoc(",", Member("objects", "[" + (list + "]")), rest);
  }

  lemma EndShape(seen: string)
    ensures TruncatedKey() + seen == "]" + ("," + Member("truncated", seen))
  {
    hide TruncatedKey;
    OuterShapes();
  }

  /** A body and what follows it, as members. */
  lemma BodyShape(seqNo: nat, count: nat, os: seq<Detected>, seen: string)
    ensures Body(seqNo, count, os) + (TruncatedKey() + seen) ==
            "{" + (Member("v", "1")
                + ("," + (Member("seq", NatText(seqNo)) + ("," + (Member("count", NatText(count)) + ("," +
              (Member("objects", "[" + (ObjectsText(os) + "]")) + ("," + Member("truncated", seen)))))))))
  {
    hide NatText; hide ObjectsText; hide SeqKey; hide CountKey; hide ObjectsKey; hide TruncatedKey; hide Member;
    OuterShapes();
    var sn, cn, list := NatText(seqNo), NatText(count), ObjectsText(os);
    EndShape(seen);
    var t := "," + Member("truncated", seen);
    ListShape(list, t);
    var o := "," + (Member("objects", "[" + (list + "]")) + t);
    KeyedShape(CountKey(), "count", cn, o);
    var c := "," + (Member("count", cn) + o);
    VersionShape(sn, c);
    Assoc((SeqKey() + sn) + ((CountKey() + cn) + ObjectsKey()), list, "]" + t);
    Assoc(SeqKey() + sn, (CountKey() + cn) + ObjectsKey(), list + ("]" + t));
    Assoc(CountKey() + cn, ObjectsKey(), list + ("]" + t));
  }

  lemma NatMember(name: string, n: nat, rest: string)
    requires Clean(name) && rest != "" && rest[0] == ','
    ensures ParseMembers(Member(name, NatText(n)) + rest) ==
            match ParseMembers(rest[1..])
              case None => None
              case Some(more) => Some(([(name, Bare(NatText(n)))] + more.0, more.1))
  {
    hide NatText; hide ParseMembers; hide ParseValue; hide Member;
    NatTextIsToken(n);
    TokenReadBack(NatText(n), rest);
    MemberReadBack(name, NatText(n), Bare(NatText(n)), rest);
  }

  /** The members a message has before its last one. */
  function Leading(seqNo: nat, count: nat, os: seq<Detected>): (ms: seq<(string, Value)>)
    ensures |ms| == 4
  {
    [("v", Bare("1")), ("seq", Bare(NatText(seqNo))), ("count", Bare(NatText(count))), ("objects", Arr(Values(os)))]
  }

  /** The reader gets through any printed body to its last member. */
  lemma BodyReads(seqNo: nat, count: nat, os: seq<Detected>, seen: string)
    requires AllReadable(os)
    ensures ParseValue(Body(seqNo, count, os) + (TruncatedKey() + seen)) ==
            match ParseMembers(Member("truncated", seen))
              case None => None
              case Some(last) => Some((Obj(Leading(seqNo, count, os) + last.0), last.1))
  {
    hide NatText; hide ObjectsText; hide TruncatedKey; hide Body; hide Member; hide ParseMembers; hide ParseValue;
    hide Values;
    BodyShape(seqNo, count, os, seen);
    var list := "[" + (ObjectsText(os) + "]");
    var t := Member("truncated", seen);
    var o := Member("objects", list) + ("," + t);
    var c := Member("count", NatText(count)) + ("," + o);
    var s := Member("seq", NatText(seqNo)) + ("," + c);
    var v := Member("v", "1") + ("," + s);
    ArrayReadBack(os, "," + t);
    Headed(",", t);
    MemberReadBack("objects", list, Arr(Values(os)), "," + t);
    Headed(",", o);
    NatMember("count", count, "," + o);
    Headed(",", c);
    NatMember("seq", seqNo, "," + c);
    Headed(",", s);
    TokenReadBack("1", "," + s);
    MemberReadBack("v", "1", Bare("1"), "," + s);
    MemberBegins("v", "1", "," + s);
    ObjectIs(v);
    var ms := Leading(seqNo, count, os);
    match ParseMembers(t) {
      case None =>
      case Some(last) =>
        assert [ms[0]] + ([ms[1]] + ([ms[2]] + ([ms[3]] + last.0))) == ms + last.0;
    }
  }

  /** What a message means, from its members. */
  lemma MessageMeans(seqNo: nat, count: nat, os: seq<Detected>, token: string, more: seq<(string, Value)>)
    ensures MessageOf(Obj(Leading(seqNo, count, os) + ([("truncated", Bare(token))] + more))) ==
            if token == "true" then Some(Message(seqNo, count, os, true))
            else if token == "false" then Some(Message(seqNo, count, os, false))
            else None
  {
    hide NatText; hide NatOf; hide Lookup; hide Values; hide ReadObjects;
    ValuesMean(os);
    NatTextReads(seqNo);
    NatTextReads(count);
    var ms := Leading(seqNo, count, os) + ([("truncated", Bare(token))] + more);
    var names := ["v", "seq", "count", "objects", "truncated"];
    NamesDiffer(names);
    forall i | 0 <= i < 5 ensures Lookup(ms, names[i]) == Some(ms[i].1) {
      assert forall j :: 0 <= j < 5 ==> ms[j].0 == names[j];
      LookupAt(ms, i);
    }
    assert names[0] == "v" && names[1] == "seq" && names[2] == "count" && names[3] == "objects"
        && names[4] == "truncated";
    var t, f := "true", "false";
    assert t[0] == 't' && f[0] == 'f';
  }

  lemma MemberAppend(name: string, value: string, rest: string)
    ensures Member(name, value + rest) == Member(name, value) + rest
  {
  }

  /** A body and a whole tail read back as everything that was printed. */
  lemma BodyReadBack(seqNo: nat, count: nat, os: seq<Detected>, truncated: bool)
    requires AllReadable(os)
    ensures ReadMessage(Body(seqNo, count, os) + Tail(truncated)) == Some(Message(seqNo, count, os, truncated))
  {
    hide Body; hide ParseMembers; hide ParseValue; hide Leading; hide MessageOf; hide Member; hide TruncatedKey;
    var token := if truncated then "true" else "false";
    assert Verdict(truncated) == token + "}";
    var seen := Verdict(truncated);
    MemberAppend("truncated", token, "}");
    TokenReadBack(token, "}");
    MemberReadBack("truncated", token, Bare(token), "}");
    BodyReads(seqNo, count, os, seen);
    MessageMeans(seqNo, count, os, token, []);
    assert [("truncated", Bare(token))] + [] == [("truncated", Bare(token))];
    var t, f := "true", "false";
    assert t[0] == 't' && f[0] == 'f';
  }

  lemma TokenHasNul(token: string, p: nat)
    requires p < |token| && token[p] == NUL
    ensures token != "true" && token != "false"
  {
    var t, f := "true", "false";
    assert forall i :: 0 <= i < |t| ==> t[i] != NUL;
    assert forall i :: 0 <= i < |f| ==> f[i] != NUL;
  }

  lemma BareValue(s: string)
    requires TokenLength(s) > 0 && s[0] !in {'"', '{', '['}
    ensures ParseValue(s) == Some((Bare(s[..TokenLength(s)]), s[TokenLength(s)..]))
  {
    hide TokenLength;
  }

  /** If anything is read of a member and what follows, the member comes first. */
  lemma LastMember(name: string, value: string, rest: string)
    requires Clean(name) && ParseValue(value + rest) == Some((Bare(value), rest))
    ensures var r := ParseMembers(Member(name, value) + rest);
            r.Some? ==> r.value.0 != [] && r.value.0[0] == (name, Bare(value))
  {
    hide ParseText; hide ParseValue; hide Member;
    MemberBegins(name, value, rest);
    Headed(":", value + rest);
  }

  /** With a NUL before the end of the verdict, the reader rejects the message. */
  lemma DamagedReadsNothing(seqNo: nat, count: nat, os: seq<Detected>, seen: string, p: nat)
    requires AllReadable(os) && p < |seen| && seen[p] == NUL
    requires forall i :: 0 <= i < p ==> seen[i] != ',' && seen[i] != '}'
    requires seen[0] !in {'"', '{', '['}
    ensures ReadMessage(Body(seqNo, count, os) + (TruncatedKey() + seen)) == None
  {
    hide Body; hide ParseMembers; hide ParseValue; hide Leading; hide MessageOf; hide Member; hide TruncatedKey;
    hide TokenLength;
    BodyReads(seqNo, count, os, seen);
    var n := TokenLength(seen);
    assert n > p;
    var token, rest := seen[..n], seen[n..];
    assert token + rest == seen;
    MemberAppend("truncated", token, rest);
    TokenHasNul(token, p);
    BareValue(seen);
    MemberBegins("truncated", token, rest);
    LastMember("truncated", token, rest);
    match ParseMembers(Member("truncated", seen)) {
      case None =>
      case Some(last) =>
        MessageMeans(seqNo, count, os, token, last.0[1..]);
        assert [("truncated", Bare(token))] + last.0[1..] == last.0;
    }
  }

  /** What the publisher may hand over when the message's length is `|text|`: past the buffer nothing is known. */
  ghost predicate HandedOver(text: string, payload: string) {
    && |payload| == |text|
    && (|text| < BUFFER_SIZE ==> payload == text)
    && (|text| >= BUFFER_SIZE
        ==> payload[..BUFFER_SIZE - 1] == text[..BUFFER_SIZE - 1] && payload[BUFFER_SIZE - 1] == NUL)
  }

  /** A payload cut at the last byte still starts with the body and the key of the tail. */
  lemma DamagedShape(body: string, key: string, verdict: string, payload: string)
    requires |body| <= Limit(RESERVE) && |key| == 14 && |verdict| <= 6
    requires |body + (key + verdict)| >= BUFFER_SIZE && HandedOver(body + (key + verdict), payload)
    ensures |body| + |key| <= BUFFER_SIZE - 1
    ensures payload == body + (key + payload[|body| + |key|..])
    ensures payload[|body| + |key|..][BUFFER_SIZE - 1 - |body| - |key|] == NUL
  {
    var text := body + (key + verdict);
    var cut := |body| + |key|;
    assert text[..cut] == body + key;
    assert payload[..cut] == payload[..BUFFER_SIZE - 1][..cut] == text[..BUFFER_SIZE - 1][..cut] == text[..cut];
    Assoc(body, key, payload[cut..]);
  }

  /** The verdict up to its last character, which is the brace that ends it. */
  lemma VerdictShape(truncated: bool)
    ensures var v := Verdict(truncated);
            && v != "" && v[0] !in {'"', '{', '['}
            && forall i :: 0 <= i < |v| - 1 ==> v[i] != ',' && v[i] != '}'
  {
    var t, f := "true}", "false}";
    assert t[0] == 't' && t[1] == 'r' && t[2] == 'u' && t[3] == 'e';
    assert f[0] == 'f' && f[1] == 'a' && f[2] == 'l' && f[3] == 's' && f[4] == 'e';
  }

  /** What is left of the verdict before the NUL. */
  lemma DamagedVerdict(body: string, key: string, verdict: string, payload: string)
    requires |body| <= Limit(RESERVE) && |key| == 14 && 1 <= |verdict| <= 6
    requires |body + (key + verdict)| >= BUFFER_SIZE && HandedOver(body + (key + verdict), payload)
    ensures var cut := |body| + |key|;
            var p := BUFFER_SIZE - 1 - cut;
            0 <= p < |verdict| && |payload| == cut + |verdict|
            && forall i :: 0 <= i < p ==> payload[cut..][i] == verdict[i]
  {
    var text := body + (key + verdict);
    var cut := |body| + |key|;
    forall i | 0 <= i < BUFFER_SIZE - 1 - cut ensures payload[cut..][i] == verdict[i] {
      assert payload[..BUFFER_SIZE - 1][cut + i] == text[..BUFFER_SIZE - 1][cut + i];
    }
  }

  /**
   For readable objects the payload reads back as the sequence number, the full
   count, the listed prefix and the truncated flag exactly when the message,
   tail included, ends before the buffer's last byte.
   */
  lemma ReadsBackIff(seqNo: nat, objects: seq<Detected>, payload: string)
    requires seqNo < TWO64 && |objects| < TWO64 && AllReadable(objects)
    requires HandedOver(FullText(seqNo, objects, RESERVE), payload)
    ensures var w := Kept(seqNo, objects, RESERVE);
            ReadMessage(payload) == Some(Message(seqNo, |objects|, objects[..w], w < |objects|))
            <==> |FullText(seqNo, objects, RESERVE)| <= 2047
    ensures |FullText(seqNo, objects, RESERVE)| > 2047 ==> ReadMessage(payload) == None
  {
    hide Body; hide ReadMessage; hide Verdict; hide TruncatedKey; hide Kept;
    var w := Kept(seqNo, objects, RESERVE);
    var body, verdict := Body(seqNo, |objects|, objects[..w]), Verdict(w < |objects|);
    var text := FullText(seqNo, objects, RESERVE);
    BodyLength(seqNo, objects, RESERVE);
    if |text| <= 2047 {
      BodyReadBack(seqNo, |objects|, objects[..w], w < |objects|);
    } else {
      var cut := |body| + |TruncatedKey()|;
      DamagedShape(body, TruncatedKey(), verdict, payload);
      DamagedVerdict(body, TruncatedKey(), verdict, payload);
      VerdictShape(w < |objects|);
      DamagedReadsNothing(seqNo, |objects|, objects[..w], payload[cut..], BUFFER_SIZE - 1 - cut);
    }
  }

  /** A single object whose name makes the body exactly as long as the limit allows. */
  function Filler(length: nat): (o: Detected)
  {
    Detected(seq(length, _ => 'a'), "0.50", 0, 0, 0, 0)
  }

  lemma FillerLength(length: nat)
    ensures |ObjectText(Filler(length))| == length + 48
    ensures Readable(Filler(length))
  {
    PlainPrints(Filler(length).name);
    assert |LabelKey()| == 10 && |ConfKey()| == 9;
    assert NatText(0) == "0";
    assert |Field(XKey(), 0)| == 6 && |Field(YKey(), 0)| == 6 && |Field(WKey(), 0)| == 6 && |Field(HKey(), 0)| == 6;
  }

  lemma FillerBody(length: nat)
    ensures |Body(0, 1, [Filler(length)])| == 36 + 48 + length
  {
    FillerLength(length);
    assert NatText(0) == "0" && NatText(1) == "1";
    assert |SeqKey()| == 13 && |CountKey()| == 9 && |ObjectsKey()| == 12;
    assert MoreText([]) == "";
    assert [Filler(length)][1..] == [];
    assert ObjectsText([Filler(length)]) == ObjectText(Filler(length)) + "";
  }

  lemma FillerMessage(reserve: nat) returns (objects: seq<Detected>)
    requires reserve < 20
    ensures |objects| < TWO64 && AllReadable(objects)
    ensures |FullText(0, objects, reserve)| == BUFFER_SIZE - 1 - reserve + 20 > BUFFER_SIZE - 1
  {
    var length := Limit(reserve) - 36 - 48;
    objects := [Filler(length)];
    FillerLength(length);
    FillerBody(length);
    assert objects[..1] == objects;
    assert Fits(0, objects, reserve, 1);
    KeptIsLongest(0, objects, reserve, 1);
  }

  /**
   Keeping back twenty characters is exactly what it takes: with a reserve of
   twenty or more every message ends before the buffer's last byte, and with any
   smaller one some message of readable objects does not.
   */
  lemma ReserveOfTwentyIsLeast(reserve: nat)
    ensures reserve >= 20 <==>
            forall seqNo: nat, objects: seq<Detected> :: seqNo < TWO64 && |objects| < TWO64 && AllReadable(objects) ==>
              |FullText(seqNo, objects, reserve)| <= 2047
  {
    hide Body; hide Tail; hide Kept;
    if reserve >= 20 {
      forall seqNo: nat, objects: seq<Detected> | seqNo < TWO64 && |objects| < TWO64
        ensures |FullText(seqNo, objects, reserve)| <= 2047
      {
        BodyLength(seqNo, objects, reserve);
      }
    } else {
      var objects := FillerMessage(reserve);
      assert |FullText(0, objects, reserve)| > BUFFER_SIZE - 1;
    }
  }

  /** With sixteen characters kept back some readable message passes the buffer end, by the most it can. */
  lemma HandOverCanPassTheEnd() returns (objects: seq<Detected>)
    ensures |objects| < TWO64 && AllReadable(objects)
    ensures |FullText(0, objects, RESERVE)| == 2051
  {
    objects := FillerMessage(RESERVE);
  }
}
