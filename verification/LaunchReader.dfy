/**
 A reader of launch text that knows its words: elements between `!`, properties as
 `key=value`, caps as fields between commas. And what it finds in the text of any
 spec whose free text holds no space.
 */
module LaunchReader {
  import opened Text
  import opened Words
  import opened Wrappers
  import opened LaunchText

  // The reader.

  /** The pieces of a text between occurrences of `c`. */
  function Split(text: string, c: char): (pieces: seq<string>)
    ensures pieces != []
    decreases |text|
  {
    match CutAt(text, c)
    case None => [text]
    case Some(p) => [p.0] + Split(p.1[1..], c)
  }

  /** The elements of a pipeline: its words between links, the empty word ending a chain. */
  function Elements(words: seq<string>): (es: seq<seq<string>>)
    ensures es != []
  {
    if words == [] then [[]]
    else
      var es := Elements(words[1..]);
      if words[0] == "!" || words[0] == "" then [[]] + es
      else [[words[0]] + es[0]] + es[1..]
  }

  function Read(text: string): seq<seq<string>> {
    Elements(Split(text, ' '))
  }

  /** What stands after `key=`, in the first piece that begins so. */
  function Value(pieces: seq<string>, key: string): Option<string> {
    if pieces == [] then None
    else if key + "=" <= pieces[0] then Some(pieces[0][|key| + 1..])
    else Value(pieces[1..], key)
  }

  function Number(pieces: seq<string>, key: string): Option<nat> {
    match Value(pieces, key)
    case None => None
    case Some(v) =>
      match ParseNat(v)
      case None => None
      case Some(p) => if p.1 == "" then Some(p.0) else None
  }

  // Reading back what is joined, linked and keyed.

  lemma SplitCons(a: string, c: char, rest: string)
    requires c !in a
    ensures Split(a + ([c] + rest), c) == [a] + Split(rest, c)
  {
    assert ([c] + rest)[0] == c && ([c] + rest)[1..] == rest;
    CutAtFound(a, c, [c] + rest);
  }

  lemma SplitOne(a: string, c: char)
    requires c !in a
    ensures Split(a, c) == [a]
  {
    CutNone(a, c);
  }

  lemma {:induction false} SplitJoined(ws: seq<string>)
    requires NoSpaces(ws) && ws != []
    ensures Split(Joined(ws), ' ') == ws
  {
    hide Split;
    if |ws| == 1 {
      SplitOne(ws[0], ' ');
    } else {
      assert " " == [' '];
      SplitCons(ws[0], ' ', Joined(ws[1..]));
      SplitJoined(ws[1..]);
      assert [ws[0]] + ws[1..] == ws;
    }
  }

  ghost predicate NoLinks(ws: seq<string>) {
    forall i :: 0 <= i < |ws| ==> ws[i] != "!" && ws[i] != ""
  }

  lemma {:induction false} ElementsCons(b: seq<string>, link: string, rest: seq<string>)
    requires NoLinks(b) && (link == "!" || link == "")
    ensures Elements(b + ([link] + rest)) == [b] + Elements(rest)
  {
    if b == [] {
      assert b + ([link] + rest) == [link] + rest && ([link] + rest)[1..] == rest;
    } else {
      ElementsCons(b[1..], link, rest);
      assert (b + ([link] + rest))[1..] == b[1..] + ([link] + rest);
      assert [b[0]] + b[1..] == b;
    }
  }

  lemma {:induction false} ElementsOne(b: seq<string>)
    requires NoLinks(b)
    ensures Elements(b) == [b]
  {
    if b == [] {
    } else {
      ElementsOne(b[1..]);
      assert [b[0]] + b[1..] == b;
    }
  }

  lemma {:induction false} ValueAt(pieces: seq<string>, i: nat, key: string, v: string)
    requires i < |pieces| && pieces[i] == key + ("=" + v)
    requires forall j :: 0 <= j < i ==> !(key + "=" <= pieces[j])
    ensures Value(pieces, key) == Some(v)
  {
    if i == 0 {
      assert key + ("=" + v) == (key + "=") + v;
      assert ((key + "=") + v)[|key| + 1..] == v;
    } else {
      ValueAt(pieces[1..], i - 1, key, v);
    }
  }

  lemma NumberAt(pieces: seq<string>, i: nat, key: string, n: nat)
    requires i < |pieces| && pieces[i] == key + ("=" + NatText(n))
    requires forall j :: 0 <= j < i ==> !(key + "=" <= pieces[j])
    ensures Number(pieces, key) == Some(n)
  {
    hide NatText; hide Value; hide ParseNat;
    ValueAt(pieces, i, key, NatText(n));
    ParseNatText(n, "");
    assert NatText(n) + "" == NatText(n);
  }

  /** A key is not the beginning of a piece that differs from it somewhere. */
  lemma NotKey(key: string, piece: string, k: nat)
    requires k < |key| && (k >= |piece| || piece[k] != key[k])
    ensures !(key + "=" <= piece)
  {
    assert (key + "=")[k] == key[k];
  }

  lemma KeyedWord(key: string, v: string)
    requires key != "" && key[0] != '!'
    ensures key + v != "!" && key + v != ""
  {
    assert (key + v)[0] == key[0];
  }

  // The pieces of the printed text.

  const APPSINK: seq<string> :=
    ["appsink", "name=out", "sync=false", "max-buffers=1", "drop=true", "emit-signals=false"]

  function Appsrc(s: SourceSpec): seq<string> {
    ["appsrc", "name=in", "is-live=true", "format=time", "block=false", "caps=" + Caps(s)]
  }

  function FrontElements(s: SourceSpec): (es: seq<seq<string>>)
    ensures |es| == if s.kind.V4l2? then 4 else 2
  {
    if s.kind.V4l2? then [["v4l2src", "device=" + s.device], [Geometry(s)], ["videoconvert"], [Caps(s)]]
    else [["videotestsrc", "is-live=true", "pattern=" + NatText(s.pattern)], [Caps(s)]]
  }

  function OutputElements(o: OutputSpec): (es: seq<seq<string>>)
    ensures |es| == if o.kind.NoOutput? then 1 else 2
  {
    match o.kind
    case RtpUdp =>
      [["rtph264pay", "config-interval=1", "pt=96"],
       ["udpsink", "host=" + o.host, "port=" + NatText(o.port), "sync=false", "async=false"]]
    case File => [["mp4mux"], ["filesink", "location=" + o.path, "async=false"]]
    case NoOutput => [["fakesink", "sync=false", "async=false"]]
  }

  lemma CapsNotLink(s: SourceSpec)
    ensures Caps(s) != "!" && Caps(s) != "" && Geometry(s) != "!" && Geometry(s) != ""
  {
    hide NatText; hide FormatText;
    KeyedWord("video/x-raw,format=", FormatText(s.fmt) + (",width=" + (NatText(s.width) +
      (",height=" + (NatText(s.height) + (",framerate=" + (NatText(s.fps) + "/1")))))));
    KeyedWord("video/x-raw,width=", NatText(s.width) + (",height=" + (NatText(s.height) +
      (",framerate=" + (NatText(s.fps) + "/1")))));
  }

  lemma FrontReads(s: SourceSpec, rest: seq<string>)
    ensures Elements(Front(s) + (["!"] + rest)) == FrontElements(s) + Elements(rest)
  {
    hide NatText; hide Caps; hide Geometry; hide Elements;
    CapsNotLink(s);
    KeyedWord("device=", s.device);
    KeyedWord("pattern=", NatText(s.pattern));
    var caps := [Caps(s)];
    ElementsCons(caps, "!", rest);
    if s.kind.V4l2? {
      var a, b, c := ["v4l2src", "device=" + s.device], [Geometry(s)], ["videoconvert"];
      var r1 := caps + (["!"] + rest);
      var r2 := c + (["!"] + r1);
      var r3 := b + (["!"] + r2);
      ElementsCons(c, "!", r1);
      ElementsCons(b, "!", r2);
      ElementsCons(a, "!", r3);
      assert Front(s) + (["!"] + rest) == a + (["!"] + r3);
      assert [a] + ([b] + ([c] + ([caps] + Elements(rest)))) == FrontElements(s) + Elements(rest);
    } else {
      var a := ["videotestsrc", "is-live=true", "pattern=" + NatText(s.pattern)];
      ElementsCons(a, "!", caps + (["!"] + rest));
      assert Front(s) + (["!"] + rest) == a + (["!"] + (caps + (["!"] + rest)));
      assert [a] + ([caps] + Elements(rest)) == FrontElements(s) + Elements(rest);
    }
  }

  lemma OutputReads(o: OutputSpec)
    ensures Elements(Output(o)) == OutputElements(o)
  {
    hide NatText; hide Elements;
    KeyedWord("host=", o.host);
    KeyedWord("port=", NatText(o.port));
    KeyedWord("location=", o.path);
    var es := OutputElements(o);
    ElementsOne(es[|es| - 1]);
    if !o.kind.NoOutput? {
      ElementsCons(es[0], "!", es[1]);
      assert Output(o) == es[0] + (["!"] + es[1]);
      assert [es[0]] + [es[1]] == es;
    }
  }

  lemma QueueNoLinks(q: QueueSpec)
    ensures NoLinks(Queue(q))
  {
    hide NatText;
    KeyedWord("max-size-buffers=", NatText(q.maxBuffers));
    KeyedWord("leaky=", if q.leaky then "downstream" else "no");
  }

  lemma EncoderNoLinks(e: EncoderSpec)
    ensures NoLinks(EncoderHead(e) + LowLatency(e))
  {
    hide NatText;
    KeyedWord("bitrate=", NatText(e.bitrateKbps));
    KeyedWord("key-int-max=", NatText(e.gop));
    KeyedWord("target-bitrate=", NatText((e.bitrateKbps * 1000) % TWO32));
    KeyedWord("gop-length=", NatText(e.gop));
  }

  lemma AppsNoLinks(s: SourceSpec)
    ensures NoLinks(APPSINK) && NoLinks(Appsrc(s)) && NoLinks(["h264parse"])
  {
    hide Caps;
    KeyedWord("caps=", Caps(s));
  }

  /** The words, link by link. */
  lemma WordsLinked(s: PipelineSpec)
    ensures var q, enc := Queue(s.queues), EncoderHead(s.encoder) + LowLatency(s.encoder);
            WordsOf(s) ==
              Front(s.source) + (["!"] + (q + (["!"] + (APPSINK + ([""] + (Appsrc(s.source) + (["!"] + (q + (["!"] +
                (enc + (["!"] + (["h264parse"] + (["!"] + Output(s.output))))))))))))))
  {
    hide Front; hide Queue; hide EncoderHead; hide LowLatency; hide Output; hide Caps;
    var q, enc, src := Queue(s.queues), EncoderHead(s.encoder) + LowLatency(s.encoder), Appsrc(s.source);
    assert CAPTURE_END == ["!"] + (APPSINK + [""]);
    assert DeliverStart(s.source) == src + ["!"];
    assert Delivery(s.output) == ["!"] + (["h264parse"] + (["!"] + Output(s.output)));
    var t := enc + Delivery(s.output);
    assert EncoderHead(s.encoder) + (LowLatency(s.encoder) + Delivery(s.output)) == t;
    assert Middle(s) + t == ["!"] + (q + (["!"] + (APPSINK + ([""] + (src + (["!"] + (q + (["!"] + t))))))));
  }

  /** The elements the reader finds. */
  lemma ReadsElements(s: PipelineSpec)
    requires Spaceless(s)
    ensures var q, enc := Queue(s.queues), EncoderHead(s.encoder) + LowLatency(s.encoder);
            Read(LaunchString(s)) ==
              FrontElements(s.source)
                  + ([q, APPSINK, Appsrc(s.source), q, enc, ["h264parse"]] + OutputElements(s.output))
  {
    hide Front; hide Queue; hide EncoderHead; hide LowLatency; hide Output; hide Caps; hide Elements; hide WordsOf;
    hide FrontElements; hide OutputElements; hide Appsrc; hide Split; hide Joined; hide NoLinks;
    WordsSpaceless(s);
    SplitJoined(WordsOf(s));
    WordsLinked(s);
    QueueNoLinks(s.queues);
    EncoderNoLinks(s.encoder);
    AppsNoLinks(s.source);
    OutputReads(s.output);
    var q, enc, src := Queue(s.queues), EncoderHead(s.encoder) + LowLatency(s.encoder), Appsrc(s.source);
    var r6 := Output(s.output);
    var r5 := ["h264parse"] + (["!"] + r6);
    var r4 := enc + (["!"] + r5);
    var r3 := q + (["!"] + r4);
    var r2 := src + (["!"] + r3);
    var r1 := APPSINK + ([""] + r2);
    ElementsCons(["h264parse"], "!", r6);
    ElementsCons(enc, "!", r5);
    ElementsCons(q, "!", r4);
    ElementsCons(src, "!", r3);
    ElementsCons(APPSINK, "", r2);
    ElementsCons(q, "!", r1);
    FrontReads(s.source, q + (["!"] + r1));
    var out := OutputElements(s.output);
    assert [q] + ([APPSINK] + ([src] + ([q] + ([enc] + ([["h264parse"]] + out)))))
        == [q, APPSINK, src, q, enc, ["h264parse"]] + out;
  }

  lemma Keyed(printed: string, key: string, v: string)
    requires printed == key + "="
    ensures printed + v == key + ("=" + v)
  {
  }

  // What each element says.

  lemma QueueValues(q: QueueSpec)
    ensures var e := Queue(q);
            && e[0] == "queue"
            && Value(e, "leaky") == Some(if q.leaky then "downstream" else "no")
            && Number(e, "max-size-buffers") == Some(q.maxBuffers)
            && Value(e, "max-size-bytes") == Some("0") && Value(e, "max-size-time") == Some("0")
  {
    hide NatText; hide Value; hide Number;
    var e := Queue(q);
    var mode := if q.leaky then "downstream" else "no";
    var leaky, buffers, bytes, time := "leaky", "max-size-buffers", "max-size-bytes", "max-size-time";
    Keyed("leaky=", "leaky", mode);
    Keyed("max-size-buffers=", "max-size-buffers", NatText(q.maxBuffers));
    NotKey(leaky, e[0], 0);
    ValueAt(e, 1, leaky, mode);
    NotKey(buffers, e[0], 0);
    NotKey(buffers, e[1], 0);
    NumberAt(e, 2, buffers, q.maxBuffers);
    NotKey(bytes, e[0], 0);
    NotKey(bytes, e[1], 0);
    assert e[2] == "max-size-buffers=" + NatText(q.maxBuffers) && e[2][10] == 'u' && bytes[10] == 'y';
    NotKey(bytes, e[2], 10);
    assert e[3] == "max-size-bytes" + ("=" + "0");
    ValueAt(e, 3, bytes, "0");
    NotKey(time, e[0], 0);
    NotKey(time, e[1], 0);
    assert e[2][9] == 'b' && time[9] == 't';
    NotKey(time, e[2], 9);
    assert e[3][9] == 'b';
    NotKey(time, e[3], 9);
    assert e[4] == "max-size-time" + ("=" + "0");
    ValueAt(e, 4, time, "0");
  }

  lemma NoCommaPrefix(key: string, v: string)
    requires ',' !in key && ',' !in v
    ensures ',' !in key + v
  {
  }

  lemma CapsShape(s: SourceSpec)
    ensures var w, h := "width=" + NatText(s.width), "height=" + NatText(s.height);
            var r := "framerate=" + (NatText(s.fps) + "/1");
            && Caps(s) == "video/x-raw"
                + ("," + (("format=" + FormatText(s.fmt)) + ("," + (w + ("," + (h + ("," + r)))))))
            && Geometry(s) == "video/x-raw" + ("," + (w + ("," + (h + ("," + r)))))
  {
    hide NatText; hide FormatText;
    var wt, ht, rt := NatText(s.width), NatText(s.height), NatText(s.fps) + "/1";
    var r1 := ",framerate=" + rt;
    assert r1 == "," + ("framerate=" + rt);
    var h1 := ",height=" + (ht + r1);
    assert h1 == "," + (("height=" + ht) + r1);
    var w1 := wt + h1;
    assert ",width=" + w1 == "," + (("width=" + wt) + h1);
    assert "video/x-raw,width=" + w1 == "video/x-raw" + ("," + (("width=" + wt) + h1));
    var ft := FormatText(s.fmt);
    assert "video/x-raw,format=" + (ft + (",width=" + w1)) == "video/x-raw"
        + ("," + (("format=" + ft) + (",width=" + w1)));
  }

  /** The fields of a caps text. */
  lemma CapsFields(s: SourceSpec)
    ensures Split(Caps(s), ',') ==
            ["video/x-raw", "format=" + FormatText(s.fmt), "width=" + NatText(s.width), "height=" + NatText(s.height),
             "framerate=" + (NatText(s.fps) + "/1")]
    ensures Split(Geometry(s), ',') ==
            ["video/x-raw", "width=" + NatText(s.width), "height=" + NatText(s.height),
             "framerate=" + (NatText(s.fps) + "/1")]
  {
    hide NatText; hide FormatText; hide Split; hide Caps; hide Geometry;
    NatTextPlain(s.width);
    NatTextPlain(s.height);
    NatTextPlain(s.fps);
    var raw, f := "video/x-raw", "format=" + FormatText(s.fmt);
    var w, h, r := "width=" + NatText(s.width), "height=" + NatText(s.height), "framerate=" + (NatText(s.fps) + "/1");
    CapsShape(s);
    NoCommaPrefix("format=", FormatText(s.fmt));
    NoCommaPrefix("width=", NatText(s.width));
    NoCommaPrefix("height=", NatText(s.height));
    NoCommaPrefix("framerate=", NatText(s.fps) + "/1");
    SplitOne(r, ',');
    SplitCons(h, ',', r);
    SplitCons(w, ',', h + ("," + r));
    SplitCons(f, ',', w + ("," + (h + ("," + r))));
    SplitCons(raw, ',', f + ("," + (w + ("," + (h + ("," + r))))));
    SplitCons(raw, ',', w + ("," + (h + ("," + r))));
    assert "," == [','];
    assert [w] + ([h] + [r]) == [w, h, r] && [f] + [w, h, r] == [f, w, h, r];
    assert [raw] + [f, w, h, r] == [raw, f, w, h, r] && [raw] + [w, h, r] == [raw, w, h, r];
  }

  lemma FormatNames(f: PixelFormat)
    ensures FormatText(f) == if f == I420 then "I420" else if f == Gray8 then "GRAY8" else if f == Rgb then "RGB"
        else "NV12"
  {
  }

  lemma CapsValues(s: SourceSpec)
    ensures var f := Split(Caps(s), ',');
            && f[0] == "video/x-raw" && Value(f, "format") == Some(FormatText(s.fmt))
            && Number(f, "width") == Some(s.width) && Number(f, "height") == Some(s.height)
            && Value(f, "framerate") == Some(NatText(s.fps) + "/1")
    ensures var f := Split(Geometry(s), ',');
            && f[0] == "video/x-raw"
            && Number(f, "width") == Some(s.width) && Number(f, "height") == Some(s.height)
            && Value(f, "framerate") == Some(NatText(s.fps) + "/1")
  {
    hide NatText; hide Split; hide Value; hide Number; hide Caps; hide Geometry; hide FormatText;
    CapsFields(s);
    var format, width, height, rate := "format", "width", "height", "framerate";
    Keyed("format=", format, FormatText(s.fmt));
    Keyed("width=", width, NatText(s.width));
    Keyed("height=", height, NatText(s.height));
    Keyed("framerate=", rate, NatText(s.fps) + "/1");
    var f, g := Split(Caps(s), ','), Split(Geometry(s), ',');
    NotKey(format, f[0], 0);
    ValueAt(f, 1, format, FormatText(s.fmt));
    NotKey(width, f[0], 0);
    NotKey(width, f[1], 0);
    NumberAt(f, 2, width, s.width);
    NumberAt(g, 1, width, s.width);
    NotKey(height, f[0], 0);
    NotKey(height, f[1], 0);
    NotKey(height, f[2], 0);
    NumberAt(f, 3, height, s.height);
    NumberAt(g, 2, height, s.height);
    NotKey(rate, f[0], 0);
    assert f[1][1] == 'o' && rate[1] == 'r';
    NotKey(rate, f[1], 1);
    NotKey(rate, f[2], 0);
    NotKey(rate, f[3], 0);
    ValueAt(f, 4, rate, NatText(s.fps) + "/1");
    ValueAt(g, 3, rate, NatText(s.fps) + "/1");
  }

  lemma EncoderValues(e: EncoderSpec)
    ensures var w := EncoderHead(e) + LowLatency(e);
            && w[0] == (if e.kind.H264Sw? then "x264enc" else if e.kind.H264Omx? then "omxh264enc" else "vvas_xvcuenc")
            && (if e.kind.H264Sw? then
                  Number(w, "bitrate") == Some(e.bitrateKbps) && Number(w, "key-int-max") == Some(e.gop)
                else
                  Number(w, "target-bitrate") == Some((e.bitrateKbps * 1000) % 0x1_0000_0000)
                  && Number(w, "gop-length") == Some(e.gop))
  {
    hide NatText; hide Value; hide Number; hide LowLatency;
    var w := EncoderHead(e) + LowLatency(e);
    if e.kind.H264Sw? {
      Keyed("bitrate=", "bitrate", NatText(e.bitrateKbps));
      Keyed("key-int-max=", "key-int-max", NatText(e.gop));
      NotKey("bitrate", w[0], 0);
      NumberAt(w, 1, "bitrate", e.bitrateKbps);
      NotKey("key-int-max", w[0], 0);
      NotKey("key-int-max", w[1], 0);
      NumberAt(w, 2, "key-int-max", e.gop);
    } else {
      var rate := (e.bitrateKbps * 1000) % TWO32;
      Keyed("target-bitrate=", "target-bitrate", NatText(rate));
      Keyed("gop-length=", "gop-length", NatText(e.gop));
      NotKey("target-bitrate", w[0], 0);
      NumberAt(w, 1, "target-bitrate", rate);
      NotKey("gop-length", w[0], 0);
      NotKey("gop-length", w[1], 0);
      NumberAt(w, 2, "gop-length", e.gop);
    }
  }

  lemma HeadStarts(e: EncoderSpec)
    ensures forall i :: 0 <= i < 3 ==>
              var w := EncoderHead(e)[i]; w != "" && w[0] !in {'s', 'c'} && (w[0] == 't' ==> |w| > 1 && w[1] == 'a')
  {
    hide NatText;
    var a, b, c, d := "bitrate=", "key-int-max=", "target-bitrate=", "gop-length=";
    var x, o, v := "x264enc", "omxh264enc", "vvas_xvcuenc";
    assert a[0] == 'b' && b[0] == 'k' && c[0] == 't' && c[1] == 'a' && d[0] == 'g';
    assert x[0] == 'x' && o[0] == 'o' && v[0] == 'v';
  }

  lemma InEither(w: string, a: seq<string>, b: seq<string>)
    ensures w in a + b <==> w in a || w in b
  {
  }

  /** The low-latency words are there exactly when asked for, each encoder's own. */
  lemma LatencyWords(e: EncoderSpec)
    ensures var w := EncoderHead(e) + LowLatency(e);
            && ("tune=zerolatency" in w <==> e.lowLatency && e.kind.H264Sw?)
            && ("speed-preset=ultrafast" in w <==> e.lowLatency && e.kind.H264Sw?)
            && ("control-rate=low-latency" in w <==> e.lowLatency && !e.kind.H264Sw?)
  {
    hide EncoderHead;
    var tune, speed, rate := "tune=zerolatency", "speed-preset=ultrafast", "control-rate=low-latency";
    assert tune[0] == 't' && tune[1] == 'u' && speed[0] == 's' && rate[0] == 'c';
    HeadStarts(e);
    InEither(tune, EncoderHead(e), LowLatency(e));
    InEither(speed, EncoderHead(e), LowLatency(e));
    InEither(rate, EncoderHead(e), LowLatency(e));
  }

  lemma Ninety()
    ensures "pt=96" == "pt" + ("=" + NatText(96))
  {
    assert NatText(9) == "9" && NatText(96) == "96";
  }

  lemma OutputValues(o: OutputSpec)
    ensures var es := OutputElements(o);
            var last := es[|es| - 1];
            && Value(last, "async") == Some("false")
            && (o.kind.RtpUdp? ==>
                  && es[0][0] == "rtph264pay" && Number(es[0], "pt") == Some(96) && last[0] == "udpsink"
                  && Value(last, "host") == Some(o.host) && Number(last, "port") == Some(o.port))
            && (o.kind.File? ==>
                  es[0] == ["mp4mux"] && last[0] == "filesink" && Value(last, "location") == Some(o.path))
            && (o.kind.NoOutput? ==> |es| == 1 && last[0] == "fakesink")
  {
    hide NatText; hide Value; hide Number;
    var es := OutputElements(o);
    var last := es[|es| - 1];
    assert "async=false" == "async" + ("=" + "false");
    if o.kind.RtpUdp? {
      Keyed("host=", "host", o.host);
      Keyed("port=", "port", NatText(o.port));
      Ninety();
      NotKey("pt", es[0][0], 0);
      NotKey("pt", es[0][1], 0);
      NumberAt(es[0], 2, "pt", 96);
      NotKey("host", last[0], 0);
      ValueAt(last, 1, "host", o.host);
      NotKey("port", last[0], 0);
      NotKey("port", last[1], 0);
      NumberAt(last, 2, "port", o.port);
      NotKey("async", last[0], 0);
      NotKey("async", last[1], 0);
      NotKey("async", last[2], 0);
      NotKey("async", last[3], 0);
      ValueAt(last, 4, "async", "false");
    } else if o.kind.File? {
      Keyed("location=", "location", o.path);
      NotKey("location", last[0], 0);
      ValueAt(last, 1, "location", o.path);
      NotKey("async", last[0], 0);
      NotKey("async", last[1], 0);
      ValueAt(last, 2, "async", "false");
    } else {
      NotKey("async", last[0], 0);
      NotKey("async", last[1], 0);
      ValueAt(last, 2, "async", "false");
    }
  }

  lemma SinkValues()
    ensures Value(APPSINK, "name") == Some("out") && Value(APPSINK, "drop") == Some("true")
    ensures Value(APPSINK, "max-buffers") == Some("1")
  {
    hide Value;
    Keyed("name=", "name", "out");
    NotKey("name", APPSINK[0], 0);
    ValueAt(APPSINK, 1, "name", "out");
    Keyed("max-buffers=", "max-buffers", "1");
    NotKey("max-buffers", APPSINK[0], 0);
    NotKey("max-buffers", APPSINK[1], 0);
    NotKey("max-buffers", APPSINK[2], 0);
    ValueAt(APPSINK, 3, "max-buffers", "1");
    Keyed("drop=", "drop", "true");
    NotKey("drop", APPSINK[0], 0);
    NotKey("drop", APPSINK[1], 0);
    NotKey("drop", APPSINK[2], 0);
    NotKey("drop", APPSINK[3], 0);
    ValueAt(APPSINK, 4, "drop", "true");
  }

  lemma SourceValues(s: SourceSpec)
    ensures var e := FrontElements(s)[0];
            if s.kind.V4l2? then e[0] == "v4l2src" && Value(e, "device") == Some(s.device)
            else e[0] == "videotestsrc" && Number(e, "pattern") == Some(s.pattern)
    ensures var e := Appsrc(s);
            e[0] == "appsrc" && Value(e, "name") == Some("in") && Value(e, "caps") == Some(Caps(s))
    ensures APPSINK[0] == "appsink" && Value(APPSINK, "name") == Some("out") && Value(APPSINK, "drop") == Some("true")
    ensures Value(APPSINK, "max-buffers") == Some("1")
  {
    hide NatText; hide Value; hide Number; hide Caps; hide Geometry;
    var e, a := FrontElements(s)[0], Appsrc(s);
    if s.kind.V4l2? {
      Keyed("device=", "device", s.device);
      NotKey("device", e[0], 0);
      ValueAt(e, 1, "device", s.device);
    } else {
      Keyed("pattern=", "pattern", NatText(s.pattern));
      NotKey("pattern", e[0], 0);
      NotKey("pattern", e[1], 0);
      NumberAt(e, 2, "pattern", s.pattern);
    }
    Keyed("name=", "name", "in");
    NotKey("name", a[0], 0);
    ValueAt(a, 1, "name", "in");
    Keyed("caps=", "caps", Caps(s));
    NotKey("caps", a[0], 0);
    NotKey("caps", a[1], 0);
    NotKey("caps", a[2], 0);
    NotKey("caps", a[3], 0);
    NotKey("caps", a[4], 0);
    ValueAt(a, 5, "caps", Caps(s));
    SinkValues();
  }

  // What the text of a spec says.

  /** Where the capture chain's queue comes: after the source and its caps. */
  function QueueAt(s: SourceSpec): nat {
    if s.kind.V4l2? then 4 else 2
  }

  /** The source, and what a camera is asked for. */
  lemma TextSaysSource(s: PipelineSpec)
    requires Spaceless(s)
    ensures var es := Read(LaunchString(s));
            && |es| >= 4 && |es[0]| > 0
            && (s.source.kind.V4l2? ==>
                  && es[0][0] == "v4l2src" && Value(es[0], "device") == Some(s.source.device)
                  && es[2] == ["videoconvert"] && |es[1]| == 1
                  && var g := Split(es[1][0], ',');
                     && g[0] == "video/x-raw"
                     && Number(g, "width") == Some(s.source.width) && Number(g, "height") == Some(s.source.height)
                     && Value(g, "framerate") == Some(NatText(s.source.fps) + "/1"))
            && (s.source.kind.TestPattern? ==>
                  es[0][0] == "videotestsrc" && Number(es[0], "pattern") == Some(s.source.pattern))
  {
    hide NatText; hide Value; hide Number; hide Caps; hide Geometry; hide Split; hide Read; hide Queue; hide LowLatency;
    hide EncoderHead; hide FormatText; hide OutputElements; hide LaunchString;
    ReadsElements(s);
    SourceValues(s.source);
    CapsValues(s.source);
  }

  /** The caps both chains are fixed to, before the first queue and at the second chain's head. */
  lemma TextSaysCaps(s: PipelineSpec)
    requires Spaceless(s)
    ensures var es, n := Read(LaunchString(s)), QueueAt(s.source);
            && |es| >= n + 7 && |es[n - 1]| == 1
            && var f := Split(es[n - 1][0], ',');
               && f[0] == "video/x-raw"
               && Value(f, "format")
                   == Some(if s.source.fmt == I420 then "I420" else if s.source.fmt == Gray8 then "GRAY8"
                                             else if s.source.fmt == Rgb then "RGB" else "NV12")
               && Number(f, "width") == Some(s.source.width) && Number(f, "height") == Some(s.source.height)
               && Value(f, "framerate") == Some(NatText(s.source.fps) + "/1")
  {
    hide NatText; hide Value; hide Number; hide Caps; hide Geometry; hide Split; hide Read; hide Queue; hide LowLatency;
    hide EncoderHead; hide FormatText; hide OutputElements; hide LaunchString;
    ReadsElements(s);
    CapsValues(s.source);
    FormatNames(s.source.fmt);
  }

  /** The two ends of the bridge between the chains. */
  lemma TextSaysBridge(s: PipelineSpec)
    requires Spaceless(s)
    ensures var es, n := Read(LaunchString(s)), QueueAt(s.source);
            && |es| >= n + 7 && |es[n - 1]| == 1 && |es[n + 1]| > 0 && |es[n + 2]| > 0
            && es[n + 1][0] == "appsink" && Value(es[n + 1], "name") == Some("out")
            && Value(es[n + 1], "drop") == Some("true") && Value(es[n + 1], "max-buffers") == Some("1")
            && es[n + 2][0] == "appsrc" && Value(es[n + 2], "name") == Some("in")
            && Value(es[n + 2], "caps") == Some(es[n - 1][0])
  {
    hide NatText; hide Value; hide Number; hide Caps; hide Geometry; hide Split; hide Read; hide Queue; hide LowLatency;
    hide EncoderHead; hide FormatText; hide OutputElements; hide LaunchString;
    ReadsElements(s);
    SourceValues(s.source);
  }

  /** Both queues: whether they drop the oldest or block, and how many buffers they hold. */
  lemma TextSaysQueues(s: PipelineSpec)
    requires Spaceless(s)
    ensures var es, n := Read(LaunchString(s)), QueueAt(s.source);
            && |es| >= n + 7
            && forall k :: k in {n, n + 3} ==>
                 && |es[k]| > 0 && es[k][0] == "queue"
                 && Value(es[k], "leaky") == Some(if s.queues.leaky then "downstream" else "no")
                 && Number(es[k], "max-size-buffers") == Some(s.queues.maxBuffers)
                 && Value(es[k], "max-size-bytes") == Some("0") && Value(es[k], "max-size-time") == Some("0")
  {
    hide NatText; hide Value; hide Number; hide Read; hide Queue; hide LowLatency;
    hide EncoderHead; hide OutputElements; hide LaunchString; hide FrontElements; hide Appsrc;
    ReadsElements(s);
    QueueValues(s.queues);
  }

  /** The encoder: its element, its rate in its own unit, its group length, its low-latency words. */
  lemma TextSaysEncoder(s: PipelineSpec)
    requires Spaceless(s)
    ensures var es, n, e := Read(LaunchString(s)), QueueAt(s.source), s.encoder;
            && |es| >= n + 7 && |es[n + 4]| > 0
            && es[n + 5] == ["h264parse"]
            && var w := es[n + 4];
               && w[0] == (if e.kind.H264Sw? then "x264enc" else if e.kind.H264Omx? then "omxh264enc"
                   else "vvas_xvcuenc")
               && (e.kind.H264Sw? ==>
                     Number(w, "bitrate") == Some(e.bitrateKbps) && Number(w, "key-int-max") == Some(e.gop))
               && (!e.kind.H264Sw? ==>
                     && Number(w, "target-bitrate") == Some((e.bitrateKbps * 1000) % 0x1_0000_0000)
                     && Number(w, "gop-length") == Some(e.gop))
               && ("tune=zerolatency" in w <==> e.lowLatency && e.kind.H264Sw?)
               && ("speed-preset=ultrafast" in w <==> e.lowLatency && e.kind.H264Sw?)
               && ("control-rate=low-latency" in w <==> e.lowLatency && !e.kind.H264Sw?)
  {
    hide NatText; hide Value; hide Number; hide Read; hide Queue; hide LowLatency;
    hide EncoderHead; hide OutputElements; hide LaunchString; hide FrontElements; hide Appsrc;
    ReadsElements(s);
    EncoderValues(s.encoder);
    LatencyWords(s.encoder);
  }

  /** The output, and that no sink waits to preroll. */
  lemma TextSaysOutput(s: PipelineSpec)
    requires Spaceless(s)
    ensures var es, n, o := Read(LaunchString(s)), QueueAt(s.source), s.output;
            && |es| == n + (if o.kind.NoOutput? then 7 else 8) && |es[n + 6]| > 0 && |es[|es| - 1]| > 0
            && var last := es[|es| - 1];
               && Value(last, "async") == Some("false")
               && (o.kind.RtpUdp? ==>
                     && es[n + 6][0] == "rtph264pay" && Number(es[n + 6], "pt") == Some(96) && last[0] == "udpsink"
                     && Value(last, "host") == Some(o.host) && Number(last, "port") == Some(o.port))
               && (o.kind.File? ==>
                     es[n + 6] == ["mp4mux"] && last[0] == "filesink" && Value(last, "location") == Some(o.path))
               && (o.kind.NoOutput? ==> last[0] == "fakesink")
  {
    hide NatText; hide Value; hide Number; hide Read; hide Queue; hide LowLatency;
    hide EncoderHead; hide LaunchString; hide FrontElements; hide Appsrc;
    ReadsElements(s);
    OutputValues(s.output);
  }
}
