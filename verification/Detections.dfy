/**
 The detections payload: printed greedily into a fixed buffer with room kept back
 for the tail, and what a reader of that shape gets back.

 A confidence is given as its two-decimal rendering, a token without commas.
 */
module Detections {
  import opened Text
  import opened Words

  const BUFFER_SIZE := 2048
  const RESERVE := 16
  const NUL: char := 0 as char

  datatype Detected = Detected(name: string, confidence: string, x: int, y: int, w: int, h: int)

  // The fixed pieces of the payload.

  function SeqKey(): string { "{\"v\":1,\"seq\":" }
  function CountKey(): (k: string) ensures k != "" && k[0] == ',' { ",\"count\":" }
  function ObjectsKey(): (k: string) ensures k != "" && k[0] == ',' { ",\"objects\":[" }
  function LabelKey(): (k: string) ensures k != "" && k[0] == '{' { "{\"label\":\"" }
  function ConfKey(): (k: string) ensures k != "" && k[0] == '"' { "\",\"conf\":" }
  function XKey(): (k: string) ensures k != "" && k[0] == ',' { ",\"x\":" }
  function YKey(): (k: string) ensures k != "" && k[0] == ',' { ",\"y\":" }
  function WKey(): (k: string) ensures k != "" && k[0] == ',' { ",\"w\":" }
  function HKey(): (k: string) ensures k != "" && k[0] == ',' { ",\"h\":" }
  function TruncatedKey(): (k: string) ensures |k| == 14 && k[0] == ']' { "],\"truncated\":" }

  function Verdict(truncated: bool): (v: string)
    ensures |v| == if truncated then 5 else 6
    ensures NUL !in v
  {
    if truncated then "true}" else "false}"
  }

  /** What `%.*s` prints of a label: it stops at a NUL. */
  function Printed(name: string): string {
    if name == "" || name[0] == NUL then "" else [name[0]] + Printed(name[1..])
  }

  function Field(key: string, v: int): (s: string)
    requires key != ""
    ensures s != "" && s[0] == key[0]
  {
    key + IntText(v)
  }

  function ObjectText(o: Detected): (s: string)
    ensures s != "" && s[0] == '{'
  {
    (LabelKey() + Printed(o.name)) + ((ConfKey() + o.confidence) +
      (Field(XKey(), o.x) + (Field(YKey(), o.y) + (Field(WKey(), o.w) + (Field(HKey(), o.h) + "}")))))
  }

  /** The objects after the first, each with its comma. */
  function MoreText(os: seq<Detected>): (s: string)
    ensures os != [] ==> s != "" && s[0] == ','
  {
    if os == [] then "" else "," + (ObjectText(os[0]) + MoreText(os[1..]))
  }

  function ObjectsText(os: seq<Detected>): (s: string)
    ensures os != [] ==> s != "" && s[0] == '{'
  {
    if os == [] then "" else ObjectText(os[0]) + MoreText(os[1..])
  }

  function Header(seqNo: nat, count: nat): string {
    (SeqKey() + NatText(seqNo)) + ((CountKey() + NatText(count)) + ObjectsKey())
  }

  /** Everything before the tail when the first objects `os` of `count` are listed. */
  function Body(seqNo: nat, count: nat, os: seq<Detected>): string {
    Header(seqNo, count) + ObjectsText(os)
  }

  function Tail(truncated: bool): (t: string)
    ensures |t| == if truncated then 19 else 20
  {
    TruncatedKey() + Verdict(truncated)
  }

  /** The most characters the body may have with `reserve` kept back. */
  function Limit(reserve: nat): int {
    BUFFER_SIZE - reserve - 1
  }

  predicate Fits(seqNo: nat, objects: seq<Detected>, reserve: nat, k: nat)
    requires k <= |objects|
  {
    |Body(seqNo, |objects|, objects[..k])| <= Limit(reserve)
  }

  /** How many objects the greedy loop writes once `k` are in. */
  function KeptFrom(seqNo: nat, objects: seq<Detected>, reserve: nat, k: nat): (w: nat)
    requires k <= |objects|
    ensures k <= w <= |objects|
    decreases |objects| - k
  {
    if k < |objects| && Fits(seqNo, objects, reserve, k + 1) then KeptFrom(seqNo, objects, reserve, k + 1) else k
  }

  lemma {:induction false} KeptFromSpec(seqNo: nat, objects: seq<Detected>, reserve: nat, k: nat)
    requires k <= |objects|
    ensures var w := KeptFrom(seqNo, objects, reserve, k);
            && (forall j :: k < j <= w ==> Fits(seqNo, objects, reserve, j))
            && (w < |objects| ==> !Fits(seqNo, objects, reserve, w + 1))
    decreases |objects| - k
  {
    hide Fits;
    if k < |objects| && Fits(seqNo, objects, reserve, k + 1) {
      KeptFromSpec(seqNo, objects, reserve, k + 1);
    }
  }

  function Kept(seqNo: nat, objects: seq<Detected>, reserve: nat): (w: nat)
    ensures w <= |objects|
  {
    KeptFrom(seqNo, objects, reserve, 0)
  }

  /** The whole message. */
  function FullText(seqNo: nat, objects: seq<Detected>, reserve: nat): string {
    var w := Kept(seqNo, objects, reserve);
    Body(seqNo, |objects|, objects[..w]) + Tail(w < |objects|)
  }

  lemma {:induction false} MoreTextSnoc(os: seq<Detected>, o: Detected)
    ensures MoreText(os + [o]) == MoreText(os) + ("," + ObjectText(o))
  {
    hide ObjectText;
    if os == [] {
      assert os + [o] == [o] && [o][1..] == [];
      assert ObjectText(o) + "" == ObjectText(o);
    } else {
      MoreTextSnoc(os[1..], o);
      assert (os + [o])[1..] == os[1..] + [o];
      Assoc(ObjectText(os[0]), MoreText(os[1..]), "," + ObjectText(o));
      Assoc(",", ObjectText(os[0]) + MoreText(os[1..]), "," + ObjectText(o));
    }
  }

  lemma MoreTextEmpty()
    ensures MoreText([]) == ""
  {
  }

  /** Appending an object appends its text, after a comma unless it is the first. */
  lemma ObjectsTextSnoc(os: seq<Detected>, o: Detected)
    ensures ObjectsText(os + [o]) == ObjectsText(os) + ((if os == [] then "" else ",") + ObjectText(o))
  {
    hide ObjectText; hide MoreText;
    if os == [] {
      assert os + [o] == [o] && [o][1..] == [];
      assert MoreText([]) == "" by {
        MoreTextEmpty();
      }
      assert ObjectText(o) + "" == ObjectText(o) && "" + ObjectText(o) == ObjectText(o);
    } else {
      MoreTextSnoc(os[1..], o);
      assert (os + [o])[1..] == os[1..] + [o];
      Assoc(ObjectText(os[0]), MoreText(os[1..]), "," + ObjectText(o));
    }
  }

  /** The chunk the loop prints for object `k`. */
  function Chunk(o: Detected, k: nat): string {
    (if k > 0 then "," else "") + ObjectText(o)
  }

  lemma BodySnoc(seqNo: nat, count: nat, objects: seq<Detected>, k: nat)
    requires k < |objects|
    ensures Body(seqNo, count, objects[..k + 1]) == Body(seqNo, count, objects[..k]) + Chunk(objects[k], k)
  {
    hide ObjectText; hide MoreText; hide ObjectsText; hide Header;
    assert objects[..k + 1] == objects[..k] + [objects[k]];
    ObjectsTextSnoc(objects[..k], objects[k]);
    Assoc(Header(seqNo, count), ObjectsText(objects[..k]), Chunk(objects[k], k));
  }

  lemma {:induction false} LongerPrefixLonger(seqNo: nat, objects: seq<Detected>, j: nat, k: nat)
    requires j <= k <= |objects|
    ensures |Body(seqNo, |objects|, objects[..j])| <= |Body(seqNo, |objects|, objects[..k])|
    decreases k - j
  {
    hide Body; hide Chunk;
    if j < k {
      BodySnoc(seqNo, |objects|, objects, j);
      LongerPrefixLonger(seqNo, objects, j + 1, k);
    }
  }

  /** Greedy is best: no longer prefix of the objects fits. */
  lemma KeptIsLongest(seqNo: nat, objects: seq<Detected>, reserve: nat, k: nat)
    requires 1 <= k <= |objects| && Fits(seqNo, objects, reserve, k)
    ensures k <= Kept(seqNo, objects, reserve)
  {
    hide Body;
    KeptFromSpec(seqNo, objects, reserve, 0);
    var w := Kept(seqNo, objects, reserve);
    if w + 1 <= k {
      LongerPrefixLonger(seqNo, objects, w + 1, k);
    }
  }

  lemma PowerTwenty()
    ensures Pow10(20) > TWO64
  {
    assert Pow10(5) == 100_000;
    assert Pow10(10) == 100_000 * Pow10(5);
    assert Pow10(15) == 100_000 * Pow10(10);
    assert Pow10(20) == 100_000 * Pow10(15);
  }

  /** The header is short: both numbers have at most 20 digits. */
  lemma HeaderLength(seqNo: nat, count: nat)
    requires seqNo < TWO64 && count < TWO64
    ensures |Header(seqNo, count)| <= 74
    ensures Body(seqNo, count, []) == Header(seqNo, count)
  {
    hide NatText;
    PowerTwenty();
    NatTextLength(seqNo, 20);
    NatTextLength(count, 20);
    assert Header(seqNo, count) + "" == Header(seqNo, count);
  }

  /** `snprintf`: as much of the text as fits, always ended by a NUL; answers the full length. */
  method Snprintf(buf: array<char>, at: nat, size: nat, text: string) returns (k: nat)
    requires size > 0 && at + size <= buf.Length
    modifies buf
    ensures k == |text|
    ensures var m := if k < size then k else size - 1;
            && buf[..at + m] == old(buf[..at]) + text[..m] && buf[at + m] == NUL
            && buf[at + m + 1..] == old(buf[at + m + 1..])
  {
    k := |text|;
    var m := if k < size then k else size - 1;
    forall i | 0 <= i < m {
      buf[at + i] := text[i];
    }
    buf[at + m] := NUL;
    assert buf[at..at + m] == text[..m];
  }

  /** The body of any message, with what the loop lists of it. */
  lemma BodyLength(seqNo: nat, objects: seq<Detected>, reserve: nat)
    requires seqNo < TWO64 && |objects| < TWO64
    ensures |Body(seqNo, |objects|, objects[..Kept(seqNo, objects, reserve)])| <=
            if Limit(reserve) >= 74 then Limit(reserve) else 74
  {
    hide Header;
    HeaderLength(seqNo, |objects|);
    KeptFromSpec(seqNo, objects, reserve, 0);
    var w := Kept(seqNo, objects, reserve);
    if w == 0 {
      assert objects[..0] == [];
    } else {
      assert Fits(seqNo, objects, reserve, w);
    }
  }

  /** The longest message there can be: a full body and the longer tail. */
  lemma FullTextLength(seqNo: nat, objects: seq<Detected>)
    requires seqNo < TWO64 && |objects| < TWO64
    ensures |FullText(seqNo, objects, RESERVE)| <= 2051
  {
    hide Body; hide Kept; hide Tail;
    BodyLength(seqNo, objects, RESERVE);
  }

  /**
   The characters handed to the publisher are all in the buffer exactly when the
   body leaves room for its tail: 19 characters when objects were left out, 20
   when none were.
   */
  lemma HandOverStaysInsideIff(seqNo: nat, objects: seq<Detected>)
    ensures var w := Kept(seqNo, objects, RESERVE);
            |FullText(seqNo, objects, RESERVE)| <= 2048 <==>
            |Body(seqNo, |objects|, objects[..w])| <= 2048 - if w < |objects| then 19 else 20
  {
    hide Body; hide Kept;
  }

  lemma KeptUnfolds(seqNo: nat, objects: seq<Detected>, reserve: nat, k: nat)
    requires k <= |objects|
    ensures KeptFrom(seqNo, objects, reserve, k) ==
            if k < |objects| && |Body(seqNo, |objects|, objects[..k + 1])| <= Limit(reserve)
                then KeptFrom(seqNo, objects, reserve, k + 1) else k
  {
    hide Body;
  }

  /**
   Prints the message into the buffer. The result is the length handed to the
   publisher: the buffer holds the whole message up to its last byte, and where
   the message is longer than that, a NUL in its last byte. The length can pass
   the end of the buffer, by at most three.
   */
  method PublishDetections(seqNo: nat, objects: seq<Detected>, buf: array<char>) returns (n: nat)
    requires seqNo < TWO64 && |objects| < TWO64
    requires buf.Length == 2048
    modifies buf
    ensures n == |FullText(seqNo, objects, RESERVE)| <= 2051
    ensures n < 2048 ==> buf[..n] == FullText(seqNo, objects, RESERVE)
    ensures n >= 2048
        ==> buf[..2047] == FullText(seqNo, objects, RESERVE)[..2047]
            && buf[2047] == NUL
  {
    hide Body; hide Header; hide Chunk; hide Tail; hide KeptFrom;
    var count := |objects|;
    HeaderLength(seqNo, count);
    assert objects[..0] == [];
    n := Snprintf(buf, 0, BUFFER_SIZE, Header(seqNo, count));
    var written := 0;
    while written < |objects|
      invariant 0 <= written <= |objects|
      invariant n == |Body(seqNo, count, objects[..written])| <= Limit(RESERVE)
      invariant buf[..n] == Body(seqNo, count, objects[..written])
      invariant KeptFrom(seqNo, objects, RESERVE, written) == Kept(seqNo, objects, RESERVE)
    {
      BodySnoc(seqNo, count, objects, written);
      KeptUnfolds(seqNo, objects, RESERVE, written);
      var room := BUFFER_SIZE - n - RESERVE;
      var k := Snprintf(buf, n, room, Chunk(objects[written], written));
      if k >= room {
        assert buf[..n] == Body(seqNo, count, objects[..written]);
        break;
      }
      assert Chunk(objects[written], written)[..k] == Chunk(objects[written], written);
      n := n + k;
      written := written + 1;
    }
    FullTextLength(seqNo, objects);
    KeptUnfolds(seqNo, objects, RESERVE, written);
    assert written == Kept(seqNo, objects, RESERVE);
    var tail := Snprintf(buf, n, BUFFER_SIZE - n, Tail(written < |objects|));
    n := n + tail;
  }
}
