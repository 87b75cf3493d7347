/** Message frames: magic, length, checksum, payload. */
module Frames {
  import opened Primitives
  import opened Codec
  import opened Messages
  import opened WrittenBack

  /** First four bytes of the payload digest. */
  type Checksum = Bytes -> Bytes4

  datatype RawMessage<T> = RawMessage(magic: Bytes4, payload: Message<T>, payloadLen: Word32, checksum: Bytes4)

  /** The payload length must fit 32 bits; the source panics otherwise. */
  predicate PayloadFits<T>(c: TxCodec<T>, m: Message<T>) {
    Fits(c, m) && |EncMessage(c, m)| < 0x1_0000_0000
  }

  /** `RawMessage::new`. */
  function NewRawMessage<T>(c: TxCodec<T>, sum: Checksum, magic: Bytes4, m: Message<T>): RawMessage<T>
    requires |EncMessage(c, m)| < 0x1_0000_0000
  {
    RawMessage(magic, m, |EncMessage(c, m)|, sum(EncMessage(c, m)))
  }

  function EncRaw<T>(c: TxCodec<T>, raw: RawMessage<T>): Bytes {
    raw.magic + EncU32(raw.payloadLen) + raw.checksum + EncMessage(c, raw.payload)
  }

  /** Decode a frame. Bytes of the payload behind the message are ignored. */
  function DecRaw<T>(c: TxCodec<T>, sum: Checksum, b: Bytes): Parsed<RawMessage<T>> {
    if |b| < 12 then Fail
    else
      var len := DecU32(b[4..8]).value;
      if |b| < 12 + len then Fail
      else
        var payload := b[12..12 + len];
        if sum(payload) != b[8..12] then Fail
        else
          match DecMessage(c, payload)
          case Fail => Fail
          case Parsed(m, _) => Parsed(RawMessage(b[..4], m, len, b[8..12]), b[12 + len..])
  }

  /** The layout of a frame with an arbitrary payload. */
  lemma FrameParts(magic: Bytes4, len: Word32, sum: Bytes4, payload: Bytes, rest: Bytes)
    requires |payload| == len
    ensures var b := magic + EncU32(len) + sum + payload + rest;
            && |b| >= 12 + len && b[..4] == magic && b[4..8] == EncU32(len) && b[8..12] == sum
            && b[12..12 + len] == payload && b[12 + len..] == rest
            && DecU32(b[4..8]) == Parsed(len, [])
  {
    ReadsU32(len, []);
    assert EncU32(len) + [] == EncU32(len);
  }

  /** A frame decodes back and leaves what followed it. */
  lemma ReadsRaw<T(!new)>(c: TxCodec<T>, sum: Checksum, magic: Bytes4, m: Message<T>, rest: Bytes)
    requires Lawful(c) && PayloadFits(c, m)
    ensures DecRaw(c, sum, EncRaw(c, NewRawMessage(c, sum, magic, m)) + rest)
            == Parsed(NewRawMessage(c, sum, magic, m), rest)
  {
    var payload := EncMessage(c, m);
    FrameParts(magic, |payload|, sum(payload), payload, rest);
    ReadsMessage(c, m, []);
    assert payload + [] == payload;
  }

  /** The bytes of a frame whose payload carries `padding` behind the message. */
  function PaddedFrame<T>(c: TxCodec<T>, sum: Checksum, magic: Bytes4, m: Message<T>, padding: Bytes): Bytes
    requires |EncMessage(c, m) + padding| < 0x1_0000_0000
  {
    var payload := EncMessage(c, m) + padding;
    magic + EncU32(|payload|) + sum(payload) + payload
  }

  /** Such a frame is accepted as that message, and is not the frame of it unless the padding is empty. */
  lemma PaddedFrameAccepted<T(!new)>(c: TxCodec<T>, sum: Checksum, magic: Bytes4, m: Message<T>, padding: Bytes,
                              rest: Bytes)
    requires Lawful(c) && Fits(c, m) && |EncMessage(c, m) + padding| < 0x1_0000_0000
    ensures var payload := EncMessage(c, m) + padding;
            var raw := RawMessage(magic, m, |payload|, sum(payload));
            && DecRaw(c, sum, PaddedFrame(c, sum, magic, m, padding) + rest) == Parsed(raw, rest)
            && (padding != [] ==> raw != NewRawMessage(c, sum, magic, m))
  {
    var payload := EncMessage(c, m) + padding;
    FrameParts(magic, |payload|, sum(payload), payload, rest);
    ReadsMessage(c, m, padding);
  }

  /** The bytes a frame announces as its payload. */
  function Payload(b: Bytes): Bytes
    requires |b| >= 12 && |b| >= 12 + DecU32(b[4..8]).value
  {
    b[12..12 + DecU32(b[4..8]).value]
  }

  lemma FrameBack(b: Bytes)
    requires |b| >= 12 && |b| >= 12 + DecU32(b[4..8]).value
    ensures var p := Payload(b); b == b[..4] + EncU32(|p|) + b[8..12] + p + b[12 + |p|..]
  {
    U32Back(b[4..8]);
    assert b[4..8] == EncU32(DecU32(b[4..8]).value);
  }

  /**
    An accepted frame is a padded frame of its message, which is within the caps; the padding is what the message
    decoder leaves of the payload.
   */
  lemma AcceptedIsPadded<T(!new)>(c: TxCodec<T>, sum: Checksum, b: Bytes)
    requires Canonical(c) && DecRaw(c, sum, b).Parsed?
    ensures var (raw, padding) := (DecRaw(c, sum, b).value, DecMessage(c, Payload(b)).rest);
            && Fits(c, raw.payload)
            && Payload(b) == EncMessage(c, raw.payload) + padding
            && raw.payloadLen == |Payload(b)| && raw.checksum == sum(Payload(b))
            && b == PaddedFrame(c, sum, raw.magic, raw.payload, padding) + DecRaw(c, sum, b).rest
  {
    MessageBack(c, Payload(b));
    FrameBack(b);
  }

  predicate IsPaddedFrame<T>(c: TxCodec<T>, sum: Checksum, b: Bytes, magic: Bytes4, m: Message<T>,
                             padding: Bytes, rest: Bytes)
  {
    && |EncMessage(c, m) + padding| < 0x1_0000_0000
    && b == PaddedFrame(c, sum, magic, m, padding) + rest
  }

  /** Exactly the padded frames of messages within the caps are accepted. */
  lemma AcceptedIff<T(!new)>(c: TxCodec<T>, sum: Checksum, b: Bytes, m: Message<T>, rest: Bytes)
    requires Lawful(c) && Canonical(c)
    ensures (exists raw :: DecRaw(c, sum, b) == Parsed(raw, rest) && raw.payload == m) <==>
            Fits(c, m) && exists magic, padding :: IsPaddedFrame(c, sum, b, magic, m, padding, rest)
  {
    if exists raw :: DecRaw(c, sum, b) == Parsed(raw, rest) && raw.payload == m {
      AcceptedIsPadded(c, sum, b);
      assert IsPaddedFrame(c, sum, b, b[..4], m, DecMessage(c, Payload(b)).rest, rest);
    }
    if Fits(c, m) && exists magic, padding :: IsPaddedFrame(c, sum, b, magic, m, padding, rest) {
      var magic, padding :| IsPaddedFrame(c, sum, b, magic, m, padding, rest);
      PaddedFrameAccepted(c, sum, magic, m, padding, rest);
    }
  }

  /** An accepted frame is the frame of its message exactly when the message decoder uses up the payload. */
  lemma OwnFrameIff<T(!new)>(c: TxCodec<T>, sum: Checksum, b: Bytes)
    requires Canonical(c) && DecRaw(c, sum, b).Parsed?
    ensures var raw := DecRaw(c, sum, b).value;
            && |EncMessage(c, raw.payload)| <= raw.payloadLen
            && (raw == NewRawMessage(c, sum, raw.magic, raw.payload) <==> DecMessage(c, Payload(b)).rest == [])
            && (b == EncRaw(c, NewRawMessage(c, sum, raw.magic, raw.payload)) + DecRaw(c, sum, b).rest <==>
                DecMessage(c, Payload(b)).rest == [])
  {
    AcceptedIsPadded(c, sum, b);
    var raw, padding := DecRaw(c, sum, b).value, DecMessage(c, Payload(b)).rest;
    if padding == [] {
      assert EncMessage(c, raw.payload) + padding == EncMessage(c, raw.payload);
    }
  }

  // ----- a stream of frames -----

  function EncStream<T>(c: TxCodec<T>, sum: Checksum, magic: Bytes4, ms: seq<Message<T>>): Bytes
    requires forall m :: m in ms ==> PayloadFits(c, m)
  {
    if ms == [] then []
    else
      assert PayloadFits(c, ms[0]);
      EncRaw(c, NewRawMessage(c, sum, magic, ms[0])) + EncStream(c, sum, magic, ms[1..])
  }

  function DecStream<T>(c: TxCodec<T>, sum: Checksum, b: Bytes): Option<seq<Message<T>>>
    decreases |b|
  {
    if b == [] then Some([])
    else
      match DecRaw(c, sum, b)
      case Fail => None
      case Parsed(raw, rest) =>
        match DecStream(c, sum, rest)
        case None => None
        case Some(ms) => Some([raw.payload] + ms)
  }

  lemma DecStreamStep<T>(c: TxCodec<T>, sum: Checksum, b: Bytes, raw: RawMessage<T>, rest: Bytes, ms: seq<Message<T>>)
    requires DecRaw(c, sum, b) == Parsed(raw, rest) && DecStream(c, sum, rest) == Some(ms)
    ensures DecStream(c, sum, b) == Some([raw.payload] + ms)
  {
  }

  lemma PaddedStreamStep<T(!new)>(c: TxCodec<T>, sum: Checksum, f: Framed<T>, rest: Bytes, ms: seq<Message<T>>)
    requires Lawful(c) && IsFramed(c, f) && DecStream(c, sum, rest) == Some(ms)
    ensures DecStream(c, sum, PaddedFrame(c, sum, f.magic, f.message, f.padding) + rest) == Some([f.message] + ms)
  {
    var payload := EncMessage(c, f.message) + f.padding;
    PaddedFrameAccepted(c, sum, f.magic, f.message, f.padding, rest);
    DecStreamStep(c, sum, PaddedFrame(c, sum, f.magic, f.message, f.padding) + rest,
                  RawMessage(f.magic, f.message, |payload|, sum(payload)), rest, ms);
  }

  /** A concatenation of frames decodes to the same messages in the same order. */
  lemma {:induction false} ReadsStream<T(!new)>(c: TxCodec<T>, sum: Checksum, magic: Bytes4, ms: seq<Message<T>>)
    requires Lawful(c) && forall m :: m in ms ==> PayloadFits(c, m)
    ensures DecStream(c, sum, EncStream(c, sum, magic, ms)) == Some(ms)
  {
    if ms == [] {
    } else {
      assert ms[0] in ms;
      ReadsStream(c, sum, magic, ms[1..]);
      assert EncMessage(c, ms[0]) + [] == EncMessage(c, ms[0]);
      PaddedStreamStep(c, sum, Framed(magic, ms[0], []), EncStream(c, sum, magic, ms[1..]), ms[1..]);
      assert [ms[0]] + ms[1..] == ms;
    }
  }

  // ----- every accepted stream -----

  /** A frame as it may be accepted: under any magic, with bytes behind its message. */
  datatype Framed<T> = Framed(magic: Bytes4, message: Message<T>, padding: Bytes)

  predicate IsFramed<T>(c: TxCodec<T>, f: Framed<T>) {
    Fits(c, f.message) && |EncMessage(c, f.message) + f.padding| < 0x1_0000_0000
  }

  predicate AllFramed<T>(c: TxCodec<T>, frames: seq<Framed<T>>) {
    forall i :: 0 <= i < |frames| ==> IsFramed(c, frames[i])
  }

  function EncFrames<T>(c: TxCodec<T>, sum: Checksum, frames: seq<Framed<T>>): Bytes
    requires AllFramed(c, frames)
  {
    if frames == [] then []
    else
      PaddedFrame(c, sum, frames[0].magic, frames[0].message, frames[0].padding) + EncFrames(c, sum, frames[1..])
  }

  function MessagesOf<T>(frames: seq<Framed<T>>): seq<Message<T>> {
    seq(|frames|, i requires 0 <= i < |frames| => frames[i].message)
  }

  lemma {:induction false} ReadsFrames<T(!new)>(c: TxCodec<T>, sum: Checksum, frames: seq<Framed<T>>)
    requires Lawful(c) && AllFramed(c, frames)
    ensures DecStream(c, sum, EncFrames(c, sum, frames)) == Some(MessagesOf(frames))
  {
    if frames == [] {
      assert MessagesOf(frames) == [];
    } else {
      var rest := frames[1..];
      ReadsFrames(c, sum, rest);
      PaddedStreamStep(c, sum, frames[0], EncFrames(c, sum, rest), MessagesOf(rest));
      FirstMessage(frames);
      FirstFrame(c, sum, frames);
    }
  }

  lemma FirstMessage<T>(frames: seq<Framed<T>>)
    requires frames != []
    ensures MessagesOf(frames) == [frames[0].message] + MessagesOf(frames[1..])
  {
  }

  lemma FirstFrame<T>(c: TxCodec<T>, sum: Checksum, frames: seq<Framed<T>>)
    requires frames != [] && AllFramed(c, frames)
    ensures EncFrames(c, sum, frames)
         == PaddedFrame(c, sum, frames[0].magic, frames[0].message, frames[0].padding) + EncFrames(c, sum, frames[1..])
  {
  }

  lemma {:induction false} StreamBack<T(!new)>(c: TxCodec<T>, sum: Checksum, b: Bytes) returns (frames: seq<Framed<T>>)
    requires Canonical(c) && DecStream(c, sum, b).Some?
    ensures AllFramed(c, frames) && b == EncFrames(c, sum, frames)
    ensures DecStream(c, sum, b).value == MessagesOf(frames)
    decreases |b|
  {
    if b == [] {
      frames := [];
    } else {
      var raw, rest := DecRaw(c, sum, b).value, DecRaw(c, sum, b).rest;
      AcceptedIsPadded(c, sum, b);
      var first := Framed(raw.magic, raw.payload, DecMessage(c, Payload(b)).rest);
      var others := StreamBack(c, sum, rest);
      frames := [first] + others;
      assert frames[1..] == others;
      assert MessagesOf(frames) == [raw.payload] + MessagesOf(others);
    }
  }

  predicate IsStream<T>(c: TxCodec<T>, sum: Checksum, b: Bytes, frames: seq<Framed<T>>) {
    AllFramed(c, frames) && b == EncFrames(c, sum, frames)
  }

  /** A stream decodes to `ms` exactly when it is a concatenation of padded frames of `ms`, in that order. */
  lemma StreamIff<T(!new)>(c: TxCodec<T>, sum: Checksum, b: Bytes, ms: seq<Message<T>>)
    requires Lawful(c) && Canonical(c)
    ensures DecStream(c, sum, b) == Some(ms) <==>
            exists frames :: IsStream(c, sum, b, frames) && MessagesOf(frames) == ms
  {
    if DecStream(c, sum, b) == Some(ms) {
      var frames := StreamBack(c, sum, b);
      assert IsStream(c, sum, b, frames);
    }
    if exists frames :: IsStream(c, sum, b, frames) && MessagesOf(frames) == ms {
      var frames :| IsStream(c, sum, b, frames) && MessagesOf(frames) == ms;
      ReadsFrames(c, sum, frames);
    }
  }
}
