/** The pipeline description as gst-launch text, and exactly what that text determines. */
module LaunchText {
  import opened Text
  import opened Words
  import opened Wrappers

  datatype SourceKind = TestPattern | V4l2
  datatype EncoderKind = H264Sw | H264Omx | H264Vcu
  datatype OutputKind = RtpUdp | File | NoOutput
  datatype PixelFormat = Unknown | Nv12 | I420 | Gray8 | Rgb

  const TWO29: nat := 0x2000_0000

  datatype SourceSpec = SourceSpec(kind: SourceKind, device: string, width: u32, height: u32, fps: u32,
      fmt: PixelFormat, pattern: u32)

  datatype EncoderSpec = EncoderSpec(kind: EncoderKind, bitrateKbps: u32, gop: u32, lowLatency: bool)
  datatype OutputSpec = OutputSpec(kind: OutputKind, host: string, port: u32, path: string)
  datatype QueueSpec = QueueSpec(leaky: bool, maxBuffers: u32)
  datatype PipelineSpec = PipelineSpec(source: SourceSpec, encoder: EncoderSpec, output: OutputSpec, queues: QueueSpec)

  function FormatText(f: PixelFormat): (t: string)
    ensures ' ' !in t && ',' !in t
  {
    match f
    case Nv12 => "NV12"
    case I420 => "I420"
    case Gray8 => "GRAY8"
    case Rgb => "RGB"
    case Unknown => "NV12"
  }

  function EncoderElement(k: EncoderKind): (t: string)
    ensures ' ' !in t
  {
    match k
    case H264Omx => "omxh264enc"
    case H264Vcu => "vvas_xvcuenc"
    case H264Sw => "x264enc"
  }

  // The text is words separated by single spaces; the double space between the two chains is an empty word.

  function Caps(s: SourceSpec): string {
    "video/x-raw,format=" + (FormatText(s.fmt) + (",width=" + (NatText(s.width) +
      (",height=" + (NatText(s.height) + (",framerate=" + (NatText(s.fps) + "/1")))))))
  }

  function Geometry(s: SourceSpec): string {
    "video/x-raw,width=" + (NatText(s.width)
        + (",height=" + (NatText(s.height) + (",framerate=" + (NatText(s.fps) + "/1")))))
  }

  function Front(s: SourceSpec): seq<string> {
    if s.kind.V4l2? then
      ["v4l2src", "device=" + s.device, "!", Geometry(s), "!", "videoconvert", "!", Caps(s)]
    else
      ["videotestsrc", "is-live=true", "pattern=" + NatText(s.pattern), "!", Caps(s)]
  }

  function Queue(q: QueueSpec): (ws: seq<string>)
    ensures |ws| == 5
  {
    ["queue", "leaky=" + (if q.leaky then "downstream" else "no"), "max-size-buffers=" + NatText(q.maxBuffers),
     "max-size-bytes=0", "max-size-time=0"]
  }

  const CAPTURE_END: seq<string> :=
    ["!", "appsink", "name=out", "sync=false", "max-buffers=1", "drop=true", "emit-signals=false", ""]

  function DeliverStart(s: SourceSpec): (ws: seq<string>)
    ensures |ws| == 7
  {
    ["appsrc", "name=in", "is-live=true", "format=time", "block=false", "caps=" + Caps(s), "!"]
  }

  /** From the end of the source to the encoder. */
  function Middle(s: PipelineSpec): (ws: seq<string>)
    ensures |ws| == 27
  {
    ["!"] + (Queue(s.queues) + (CAPTURE_END + (DeliverStart(s.source) + (Queue(s.queues) + ["!"]))))
  }

  function EncoderHead(e: EncoderSpec): (ws: seq<string>)
    ensures |ws| == 3
  {
    if e.kind.H264Sw? then
      [EncoderElement(e.kind), "bitrate=" + NatText(e.bitrateKbps), "key-int-max=" + NatText(e.gop)]
    else
      [EncoderElement(e.kind), "target-bitrate=" + NatText((e.bitrateKbps * 1000) % TWO32),
       "gop-length=" + NatText(e.gop)]
  }

  function LowLatency(e: EncoderSpec): seq<string> {
    if !e.lowLatency then []
    else if e.kind.H264Sw? then ["tune=zerolatency", "speed-preset=ultrafast"]
    else ["control-rate=low-latency"]
  }

  function Output(o: OutputSpec): seq<string> {
    match o.kind
    case RtpUdp =>
      ["rtph264pay", "config-interval=1", "pt=96", "!", "udpsink", "host=" + o.host, "port=" + NatText(o.port),
       "sync=false", "async=false"]
    case File => ["mp4mux", "!", "filesink", "location=" + o.path, "async=false"]
    case NoOutput => ["fakesink", "sync=false", "async=false"]
  }

  function Delivery(o: OutputSpec): (ws: seq<string>)
    ensures |ws| >= 4 && ws[0] == "!"
  {
    ["!", "h264parse", "!"] + Output(o)
  }

  function WordsOf(s: PipelineSpec): seq<string> {
    Front(s.source) + (Middle(s) + (EncoderHead(s.encoder) + (LowLatency(s.encoder) + Delivery(s.output))))
  }

  function Joined(ws: seq<string>): string {
    if ws == [] then "" else if |ws| == 1 then ws[0] else ws[0] + (" " + Joined(ws[1..]))
  }

  function LaunchString(s: PipelineSpec): string {
    Joined(WordsOf(s))
  }

  // What the text is meant to determine.

  predicate SameFormat(f: PixelFormat, g: PixelFormat) {
    f == g || (f in {Unknown, Nv12} && g in {Unknown, Nv12})
  }

  predicate SameSource(a: SourceSpec, b: SourceSpec) {
    && a.kind == b.kind
    && (if a.kind.V4l2? then a.device == b.device else a.pattern == b.pattern)
    && a.width == b.width && a.height == b.height && a.fps == b.fps && SameFormat(a.fmt, b.fmt)
  }

  /** The hardware encoders are told bits per second in 32 bits, which forgets all but the low 29 bits of the rate. */
  predicate SameEncoder(a: EncoderSpec, b: EncoderSpec) {
    && a.kind == b.kind
    && (if a.kind.H264Sw? then a.bitrateKbps == b.bitrateKbps else a.bitrateKbps % TWO29 == b.bitrateKbps % TWO29)
    && a.gop == b.gop && a.lowLatency == b.lowLatency
  }

  predicate SameOutput(a: OutputSpec, b: OutputSpec) {
    && a.kind == b.kind
    && (a.kind.RtpUdp? ==> a.host == b.host && a.port == b.port)
    && (a.kind.File? ==> a.path == b.path)
  }

  predicate SameSpec(a: PipelineSpec, b: PipelineSpec) {
    SameSource(a.source, b.source) && SameEncoder(a.encoder, b.encoder) && SameOutput(a.output, b.output)
        && a.queues == b.queues
  }

  /** The free-text fields hold no space. */
  predicate Spaceless(s: PipelineSpec) {
    ' ' !in s.source.device && ' ' !in s.output.host && ' ' !in s.output.path
  }

  // Joining words without spaces loses nothing.

  ghost predicate NoSpaces(ws: seq<string>) {
    forall i :: 0 <= i < |ws| ==> ' ' !in ws[i]
  }

  lemma JoinedCut(ws: seq<string>)
    requires NoSpaces(ws) && ws != []
    ensures CutAt(Joined(ws), ' ') == if |ws| == 1 then None else Some((ws[0], " " + Joined(ws[1..])))
  {
    if |ws| == 1 {
      CutNone(ws[0], ' ');
    } else {
      CutAtFound(ws[0], ' ', " " + Joined(ws[1..]));
    }
  }

  lemma PrefixCancels(p: string, a: string, b: string)
    requires p + a == p + b
    ensures a == b
  {
    assert (p + a)[|p|..] == a && (p + b)[|p|..] == b;
  }

  lemma {:induction false} JoinedInjective(vs: seq<string>, ws: seq<string>)
    requires NoSpaces(vs) && NoSpaces(ws) && vs != [] && ws != []
    requires Joined(vs) == Joined(ws)
    ensures vs == ws
    decreases |vs|
  {
    hide CutAt;
    JoinedCut(vs);
    JoinedCut(ws);
    if |vs| == 1 {
    } else {
      PrefixCancels(" ", Joined(vs[1..]), Joined(ws[1..]));
      JoinedInjective(vs[1..], ws[1..]);
      assert vs == [vs[0]] + vs[1..] && ws == [ws[0]] + ws[1..];
    }
  }

  lemma SuffixCancels(a: string, b: string, p: string)
    requires a + p == b + p
    ensures a == b
  {
    assert |a| == |b|;
    assert (a + p)[..|a|] == a && (b + p)[..|b|] == b;
  }

  /** Equal lists split alike where their first parts have the same length. */
  lemma SplitsAlike(a: seq<string>, b: seq<string>, c: seq<string>, d: seq<string>)
    requires |a| == |c| && a + b == c + d
    ensures a == c && b == d
  {
    assert (a + b)[..|a|] == a && (c + d)[..|c|] == c;
    assert (a + b)[|a|..] == b && (c + d)[|c|..] == d;
  }

  /** Two texts without commas, each followed by a comma, split alike there. */
  lemma CommaSplits(a: string, b: string, c: string, d: string)
    requires ',' !in a && ',' !in c && b != "" && d != "" && b[0] == ',' && d[0] == ','
    requires a + b == c + d
    ensures a == c && b == d
  {
    CutAtFound(a, ',', b);
    CutAtFound(c, ',', d);
  }

  lemma NatTextPlain(n: nat)
    ensures ' ' !in NatText(n) && ',' !in NatText(n)
  {
    hide NatText;
  }

  lemma KeyedNumber(key: string, m: nat, n: nat)
    requires key + NatText(m) == key + NatText(n)
    ensures m == n
  {
    hide NatText;
    PrefixCancels(key, NatText(m), NatText(n));
    NatTextInjective(m, n);
  }

  lemma FormatsDiffer(f: PixelFormat, g: PixelFormat)
    ensures FormatText(f) == FormatText(g) <==> SameFormat(f, g)
  {
    var nv, i, y, r := "NV12", "I420", "GRAY8", "RGB";
    assert nv[0] == 'N' && i[0] == 'I' && y[0] == 'G' && r[0] == 'R';
  }

  lemma ElementsDiffer(j: EncoderKind, k: EncoderKind)
    ensures EncoderElement(j) == EncoderElement(k) <==> j == k
  {
    var o, v, x := "omxh264enc", "vvas_xvcuenc", "x264enc";
    assert o[0] == 'o' && v[0] == 'v' && x[0] == 'x';
  }

  /** The geometry part shared by both caps forms. */
  function Size(s: SourceSpec): string {
    NatText(s.width) + (",height=" + (NatText(s.height) + (",framerate=" + (NatText(s.fps) + "/1"))))
  }

  lemma SizeDetermines(a: SourceSpec, b: SourceSpec)
    requires Size(a) == Size(b)
    ensures a.width == b.width && a.height == b.height && a.fps == b.fps
  {
    hide NatText; hide CutAt;
    NatTextPlain(a.width); NatTextPlain(b.width); NatTextPlain(a.height); NatTextPlain(b.height);
    var ra, rb := NatText(a.fps) + "/1", NatText(b.fps) + "/1";
    var ha, hb := NatText(a.height) + (",framerate=" + ra), NatText(b.height) + (",framerate=" + rb);
    CommaSplits(NatText(a.width), ",height=" + ha, NatText(b.width), ",height=" + hb);
    PrefixCancels(",height=", ha, hb);
    CommaSplits(NatText(a.height), ",framerate=" + ra, NatText(b.height), ",framerate=" + rb);
    PrefixCancels(",framerate=", ra, rb);
    SuffixCancels(NatText(a.fps), NatText(b.fps), "/1");
    NatTextInjective(a.width, b.width);
    NatTextInjective(a.height, b.height);
    NatTextInjective(a.fps, b.fps);
  }

  lemma CapsAsSize(s: SourceSpec)
    ensures Caps(s) == "video/x-raw,format=" + (FormatText(s.fmt) + (",width=" + Size(s)))
  {
    hide NatText; hide FormatText;
  }

  lemma CapsDetermine(a: SourceSpec, b: SourceSpec)
    requires Caps(a) == Caps(b)
    ensures a.width == b.width && a.height == b.height && a.fps == b.fps && SameFormat(a.fmt, b.fmt)
  {
    hide NatText; hide CutAt; hide Size; hide FormatText;
    CapsAsSize(a);
    CapsAsSize(b);
    PrefixCancels("video/x-raw,format=", FormatText(a.fmt) + (",width=" + Size(a)),
                  FormatText(b.fmt) + (",width=" + Size(b)));
    CommaSplits(FormatText(a.fmt), ",width=" + Size(a), FormatText(b.fmt), ",width=" + Size(b));
    PrefixCancels(",width=", Size(a), Size(b));
    SizeDetermines(a, b);
    FormatsDiffer(a.fmt, b.fmt);
  }

  lemma FrontDetermines(a: SourceSpec, b: SourceSpec)
    requires a.kind == b.kind && Front(a) == Front(b)
    ensures SameSource(a, b)
  {
    hide NatText; hide Caps; hide Geometry;
    if a.kind.V4l2? {
      assert Front(a)[1] == Front(b)[1] && Front(a)[7] == Front(b)[7];
      PrefixCancels("device=", a.device, b.device);
    } else {
      assert Front(a)[2] == Front(b)[2] && Front(a)[4] == Front(b)[4];
      KeyedNumber("pattern=", a.pattern, b.pattern);
    }
    CapsDetermine(a, b);
  }

  lemma QueueDetermines(p: QueueSpec, q: QueueSpec)
    requires Queue(p) == Queue(q)
    ensures p == q
  {
    hide NatText;
    assert Queue(p)[1] == Queue(q)[1] && Queue(p)[2] == Queue(q)[2];
    KeyedNumber("max-size-buffers=", p.maxBuffers, q.maxBuffers);
    if p.leaky != q.leaky {
      PrefixCancels("leaky=", if p.leaky then "downstream" else "no", if q.leaky then "downstream" else "no");
    }
  }

  /** 1000 is 125 * 2^3, and 125 has an inverse modulo 2^29: 125 * 115964117 == 1 + 27 * 2^29. */
  lemma ThousandInverse(d: int, k: int)
    requires 1000 * d == k * TWO32
    ensures d == (115964117 * k - 27 * d) * TWO29
  {
    assert 125 * d == k * TWO29;
  }

  lemma SameRemainder(x: int, y: int, q: int, m: nat)
    requires m > 0 && x == y + q * m
    ensures x % m == y % m
  {
    AddMultiple(y, q, m);
  }

  lemma RemainderDifference(x: int, y: int, m: nat)
    requires m > 0 && x % m == y % m
    ensures x - y == (x / m - y / m) * m
  {
    assert x == (x / m) * m + x % m && y == (y / m) * m + y % m;
  }

  /** Multiplying by 1000 in 32 bits keeps exactly the low 29 bits. */
  lemma ThousandKeeps29Bits(x: u32, y: u32)
    ensures (x * 1000) % TWO32 == (y * 1000) % TWO32 <==> x % TWO29 == y % TWO29
  {
    var d := x - y;
    if (x * 1000) % TWO32 == (y * 1000) % TWO32 {
      var k := x * 1000 / TWO32 - y * 1000 / TWO32;
      RemainderDifference(x * 1000, y * 1000, TWO32);
      ThousandInverse(d, k);
      SameRemainder(x, y, 115964117 * k - 27 * d, TWO29);
    }
    if x % TWO29 == y % TWO29 {
      var q := x / TWO29 - y / TWO29;
      RemainderDifference(x, y, TWO29);
      SameRemainder(x * 1000, y * 1000, 125 * q, TWO32);
    }
  }

  lemma EncoderHeadDetermines(a: EncoderSpec, b: EncoderSpec)
    ensures EncoderHead(a) == EncoderHead(b) <==>
            a.kind == b.kind && a.gop == b.gop
            && (if a.kind.H264Sw? then a.bitrateKbps == b.bitrateKbps
                else a.bitrateKbps % TWO29 == b.bitrateKbps % TWO29)
  {
    hide NatText; hide EncoderElement;
    ElementsDiffer(a.kind, b.kind);
    ThousandKeeps29Bits(a.bitrateKbps, b.bitrateKbps);
    if EncoderHead(a) == EncoderHead(b) {
      assert EncoderHead(a)[0] == EncoderHead(b)[0] && EncoderHead(a)[1] == EncoderHead(b)[1]
          && EncoderHead(a)[2] == EncoderHead(b)[2];
      if a.kind.H264Sw? {
        KeyedNumber("bitrate=", a.bitrateKbps, b.bitrateKbps);
        KeyedNumber("key-int-max=", a.gop, b.gop);
      } else {
        KeyedNumber("target-bitrate=", (a.bitrateKbps * 1000) % TWO32, (b.bitrateKbps * 1000) % TWO32);
        KeyedNumber("gop-length=", a.gop, b.gop);
      }
    }
  }

  lemma OutputDetermines(a: OutputSpec, b: OutputSpec)
    requires Output(a) == Output(b)
    ensures SameOutput(a, b)
  {
    hide NatText;
    var r, m, f := "rtph264pay", "mp4mux", "fakesink";
    assert r[0] == 'r' && m[0] == 'm' && f[0] == 'f';
    assert Output(a)[0] == Output(b)[0];
    if a.kind.RtpUdp? {
      assert Output(a)[5] == Output(b)[5] && Output(a)[6] == Output(b)[6];
      PrefixCancels("host=", a.host, b.host);
      KeyedNumber("port=", a.port, b.port);
    } else if a.kind.File? {
      assert Output(a)[3] == Output(b)[3];
      PrefixCancels("location=", a.path, b.path);
    }
  }

  /** After the encoder's own words, whether the next word is `!` tells the low-latency choice. */
  lemma LatencyDetermines(a: PipelineSpec, b: PipelineSpec)
    requires a.encoder.kind == b.encoder.kind
    requires LowLatency(a.encoder) + Delivery(a.output) == LowLatency(b.encoder) + Delivery(b.output)
    ensures a.encoder.lowLatency == b.encoder.lowLatency && Delivery(a.output) == Delivery(b.output)
  {
    hide Delivery;
    var bang, tune, rate := "!", "tune=zerolatency", "control-rate=low-latency";
    assert bang[0] == '!' && tune[0] == 't' && rate[0] == 'c';
    assert (LowLatency(a.encoder) + Delivery(a.output))[0] == (LowLatency(b.encoder) + Delivery(b.output))[0];
    assert a.encoder.lowLatency == b.encoder.lowLatency;
    SplitsAlike(LowLatency(a.encoder), Delivery(a.output), LowLatency(b.encoder), Delivery(b.output));
  }

  lemma SourceKindShows(a: PipelineSpec, b: PipelineSpec)
    requires WordsOf(a) == WordsOf(b)
    ensures a.source.kind == b.source.kind
  {
    hide Middle; hide EncoderHead; hide LowLatency; hide Delivery; hide Caps; hide Geometry; hide NatText;
    assert WordsOf(a)[0] == Front(a.source)[0] && WordsOf(b)[0] == Front(b.source)[0];
    var v, t := "v4l2src", "videotestsrc";
    assert v[1] == '4' && t[1] == 'i';
  }

  lemma MiddleDetermines(a: PipelineSpec, b: PipelineSpec)
    requires Middle(a) == Middle(b)
    ensures a.queues == b.queues
  {
    hide Queue; hide DeliverStart;
    var ra := CAPTURE_END + (DeliverStart(a.source) + (Queue(a.queues) + ["!"]));
    var rb := CAPTURE_END + (DeliverStart(b.source) + (Queue(b.queues) + ["!"]));
    SplitsAlike(["!"], Queue(a.queues) + ra, ["!"], Queue(b.queues) + rb);
    SplitsAlike(Queue(a.queues), ra, Queue(b.queues), rb);
    QueueDetermines(a.queues, b.queues);
  }

  lemma WordsDetermineRest(a: PipelineSpec, b: PipelineSpec)
    requires WordsOf(a) == WordsOf(b) && a.source.kind == b.source.kind && |Front(a.source)| == |Front(b.source)|
    ensures SameSpec(a, b)
  {
    hide Front; hide Middle; hide EncoderHead; hide LowLatency; hide Output; hide SameSource; hide SameOutput;
    var la, lb := LowLatency(a.encoder) + Delivery(a.output), LowLatency(b.encoder) + Delivery(b.output);
    var ea, eb := EncoderHead(a.encoder) + la, EncoderHead(b.encoder) + lb;
    SplitsAlike(Front(a.source), Middle(a) + ea, Front(b.source), Middle(b) + eb);
    SplitsAlike(Middle(a), ea, Middle(b), eb);
    SplitsAlike(EncoderHead(a.encoder), la, EncoderHead(b.encoder), lb);
    FrontDetermines(a.source, b.source);
    MiddleDetermines(a, b);
    EncoderHeadDetermines(a.encoder, b.encoder);
    LatencyDetermines(a, b);
    SplitsAlike(["!", "h264parse", "!"], Output(a.output), ["!", "h264parse", "!"], Output(b.output));
    OutputDetermines(a.output, b.output);
  }

  /** Equal word lists come only from specs that agree on everything relevant. */
  lemma WordsDetermine(a: PipelineSpec, b: PipelineSpec)
    requires WordsOf(a) == WordsOf(b)
    ensures SameSpec(a, b)
  {
    SourceKindShows(a, b);
    assert |Front(a.source)| == |Front(b.source)|;
    WordsDetermineRest(a, b);
  }

  /** Specs that agree on everything relevant have the same words. */
  lemma SameSpecSameWords(a: PipelineSpec, b: PipelineSpec)
    requires SameSpec(a, b)
    ensures WordsOf(a) == WordsOf(b)
  {
    hide NatText; hide FormatText; hide EncoderHead;
    FormatsDiffer(a.source.fmt, b.source.fmt);
    EncoderHeadDetermines(a.encoder, b.encoder);
    assert Caps(a.source) == Caps(b.source) && Geometry(a.source) == Geometry(b.source);
    assert Front(a.source) == Front(b.source) && Middle(a) == Middle(b) && Output(a.output) == Output(b.output);
  }

  lemma CapsSpaceless(s: SourceSpec)
    ensures ' ' !in Caps(s) && ' ' !in Geometry(s)
  {
    hide NatText; hide FormatText;
    NatTextPlain(s.width); NatTextPlain(s.height); NatTextPlain(s.fps);
    assert ' ' !in Size(s);
    CapsAsSize(s);
    assert Geometry(s) == "video/x-raw,width=" + Size(s);
  }

  lemma AppendSpaceless(vs: seq<string>, ws: seq<string>)
    requires NoSpaces(vs) && NoSpaces(ws)
    ensures NoSpaces(vs + ws)
  {
  }

  lemma FrontSpaceless(s: SourceSpec)
    requires ' ' !in s.device
    ensures NoSpaces(Front(s))
  {
    hide NatText; hide FormatText; hide Caps; hide Geometry;
    CapsSpaceless(s);
    NatTextPlain(s.pattern);
  }

  lemma QueueSpaceless(q: QueueSpec)
    ensures NoSpaces(Queue(q))
  {
    hide NatText;
    NatTextPlain(q.maxBuffers);
  }

  lemma FixedSpaceless(s: SourceSpec)
    ensures NoSpaces(["!"]) && NoSpaces(CAPTURE_END) && NoSpaces(DeliverStart(s))
  {
    hide Caps; hide Geometry;
    CapsSpaceless(s);
  }

  lemma MiddleSpaceless(s: PipelineSpec)
    ensures NoSpaces(Middle(s))
  {
    hide Queue; hide Caps; hide Geometry; hide NoSpaces;
    QueueSpaceless(s.queues);
    FixedSpaceless(s.source);
    var q := Queue(s.queues);
    AppendSpaceless(q, ["!"]);
    AppendSpaceless(DeliverStart(s.source), q + ["!"]);
    AppendSpaceless(CAPTURE_END, DeliverStart(s.source) + (q + ["!"]));
    AppendSpaceless(q, CAPTURE_END + (DeliverStart(s.source) + (q + ["!"])));
    AppendSpaceless(["!"], q + (CAPTURE_END + (DeliverStart(s.source) + (q + ["!"]))));
  }

  lemma EncoderSpaceless(e: EncoderSpec)
    ensures NoSpaces(EncoderHead(e)) && NoSpaces(LowLatency(e))
  {
    hide NatText; hide EncoderElement;
    NatTextPlain(e.bitrateKbps); NatTextPlain((e.bitrateKbps * 1000) % TWO32); NatTextPlain(e.gop);
  }

  lemma DeliveryHeadSpaceless()
    ensures NoSpaces(["!", "h264parse", "!"])
  {
  }

  lemma KeyedSpaceless(key: string, value: string)
    requires ' ' !in key && ' ' !in value
    ensures ' ' !in key + value
  {
  }

  lemma OutputWordsSpaceless(o: OutputSpec)
    requires ' ' !in o.host && ' ' !in o.path
    ensures NoSpaces(Output(o))
  {
    hide NatText;
    NatTextPlain(o.port);
    KeyedSpaceless("host=", o.host);
    KeyedSpaceless("port=", NatText(o.port));
    KeyedSpaceless("location=", o.path);
  }

  lemma OutputSpaceless(o: OutputSpec)
    requires ' ' !in o.host && ' ' !in o.path
    ensures NoSpaces(Delivery(o))
  {
    hide NatText; hide NoSpaces;
    NatTextPlain(o.port);
    DeliveryHeadSpaceless();
    OutputWordsSpaceless(o);
    AppendSpaceless(["!", "h264parse", "!"], Output(o));
  }

  lemma WordsSpaceless(s: PipelineSpec)
    requires Spaceless(s)
    ensures NoSpaces(WordsOf(s)) && WordsOf(s) != []
  {
    hide Front; hide Middle; hide EncoderHead; hide LowLatency; hide Delivery;
    FrontSpaceless(s.source);
    MiddleSpaceless(s);
    EncoderSpaceless(s.encoder);
    OutputSpaceless(s.output);
  }

  /**
   The text loses nothing: two specs without spaces in their free text print alike
   exactly when they agree on every field their kinds use, the unknown pixel format
   being NV12 and a hardware bit rate counting only in its low 29 bits.
   */
  lemma SameTextIffSameSpec(a: PipelineSpec, b: PipelineSpec)
    requires Spaceless(a) && Spaceless(b)
    ensures LaunchString(a) == LaunchString(b) <==> SameSpec(a, b)
  {
    hide WordsOf; hide Joined; hide SameSpec;
    if LaunchString(a) == LaunchString(b) {
      WordsSpaceless(a);
      WordsSpaceless(b);
      JoinedInjective(WordsOf(a), WordsOf(b));
      WordsDetermine(a, b);
    }
    if SameSpec(a, b) {
      SameSpecSameWords(a, b);
    }
  }

  /** Where a thousandfold bit rate fits 32 bits the text determines it whole. */
  lemma SmallBitrateIsKept(a: PipelineSpec, b: PipelineSpec)
    requires Spaceless(a) && Spaceless(b) && LaunchString(a) == LaunchString(b)
    requires a.encoder.bitrateKbps * 1000 < TWO32 && b.encoder.bitrateKbps * 1000 < TWO32
    ensures a.encoder == b.encoder
  {
    hide LaunchString; hide SameSource; hide SameOutput; hide Spaceless;
    SameTextIffSameSpec(a, b);
  }

  /** Beyond that it does not: a hardware encoder asked for rates 2^29 apart gets the same text. */
  lemma LargeBitrateIsLost(s: PipelineSpec)
    requires Spaceless(s) && !s.encoder.kind.H264Sw? && s.encoder.bitrateKbps + TWO29 < TWO32
    ensures var t := s.(encoder := s.encoder.(bitrateKbps := s.encoder.bitrateKbps + TWO29));
            t != s && LaunchString(t) == LaunchString(s)
  {
    hide LaunchString;
    var t := s.(encoder := s.encoder.(bitrateKbps := s.encoder.bitrateKbps + TWO29));
    SameTextIffSameSpec(s, t);
  }
}
