// The bytes of a BROAD: encode_broadcast_buffer and total_broadcast on the issuer's side,
// handle_client and handle_broadcast on the receiver's.
module BroadWire {
  import opened Wrappers
  import opened Buffers
  import opened Decimal
  import opened QueueSpec
  import opened Words

  const BASEPORT: nat := 10000
  const HEADER: string := "BROAD\r\n"
  const META: nat := 38     // 12 for the uid, 8 pid, 8 port, 4 timestamp, 6 length
  const BODY_AT: nat := 45  // where the message starts: 7 + 38

  // What a receiver reads out of the fields, and the part of the message that arrived.
  datatype Received = Received(uid: nat, pid: nat, port: nat, lc: nat, length: nat, body: string)

  function Metadata(m: Message): (s: string)
    ensures |s| == META
  {
    Field(m.uid, 12, ' ') + Field(m.pid, 8, '0') + Field(BASEPORT + m.src, 8, '0')
    + Field(m.lc, 4, '0') + Field(|m.body|, 6, '0')
  }

  // Everything that encode_broadcast_buffer writes before the terminator.
  function Encoded(m: Message): (s: string)
    ensures |s| == BODY_AT + |m.body| + 2
  {
    HEADER + Metadata(m) + m.body + "\r\n"
  }

  // total_broadcast hands 40 + L bytes to send, fewer than were encoded.
  function Sent(m: Message): string {
    Encoded(m)[..40 + |m.body|]
  }

  // encode_broadcast_buffer. `buffer` is the memory from the allocated address on:
  // total_broadcast allocates 40 + L bytes, the writes end exactly eight bytes further.
  method EncodeBroadcastBuffer(m: Message, buffer: array<char>)
    requires buffer.Length >= BODY_AT + |m.body| + 3
    modifies buffer
    ensures buffer[..BODY_AT + |m.body| + 2] == Encoded(m)
    ensures buffer[BODY_AT + |m.body| + 2] == '\0'
    ensures forall i :: 40 + |m.body| + 8 <= i < buffer.Length ==> buffer[i] == old(buffer[i])
  {
    hide Field;
    var offset := CopyTo(buffer, 0, HEADER);
    assert buffer[..0] == [] && [] + HEADER == HEADER;
    offset := CopyTo(buffer, offset, Field(m.uid, 12, ' '));
    offset := CopyTo(buffer, offset, Field(m.pid, 8, '0'));
    offset := CopyTo(buffer, offset, Field(BASEPORT + m.src, 8, '0'));
    offset := CopyTo(buffer, offset, Field(m.lc, 4, '0'));
    offset := CopyTo(buffer, offset, Field(|m.body|, 6, '0'));
    Regroup(HEADER, Field(m.uid, 12, ' '), Field(m.pid, 8, '0'), Field(BASEPORT + m.src, 8, '0'),
            Field(m.lc, 4, '0'), Field(|m.body|, 6, '0'));
    assert buffer[..offset] == HEADER + Metadata(m);
    offset := CopyTo(buffer, offset, m.body);
    offset := CopyTo(buffer, offset, "\r\n");
    buffer[offset] := '\0';
  }

  lemma Regroup(h: string, a: string, b: string, c: string, d: string, e: string)
    ensures h + a + b + c + d + e == h + (a + b + c + d + e)
  {
  }

  // ----- Which handler gets a connection -----

  datatype Branch = ToIssue | ToBroadcast | ToAck | ToReady | Nowhere

  // handle_client reads 7 bytes and compares 5 of them with the four operations.
  function Route(stream: string): Branch {
    if |stream| < 5 then Nowhere
    else if stream[..5] == "ISSUE" then ToIssue
    else if stream[..5] == "BROAD" then ToBroadcast
    else if stream[..5] == "ACK00" then ToAck
    else if stream[..5] == "READY" then ToReady
    else Nowhere
  }

  // The bytes laid out: operation, uid padded with blanks, then pid, port, timestamp and
  // length padded with zeros, each in its own width; then the message.
  lemma Layout(m: Message)
    requires m.uid < WORD && Fits(m)
    ensures var e := Encoded(m);
            && |e| == 47 + |m.body| && e[..7] == "BROAD\r\n"
            && e[7..19] == PadLeft(Digits(m.uid), 12, ' ') && e[19..27] == PadLeft(Digits(m.pid), 8, '0')
            && e[27..35] == PadLeft(Digits(10000 + m.src), 8, '0') && e[35..39] == PadLeft(Digits(m.lc), 4, '0')
            && e[39..45] == PadLeft(Digits(|m.body|), 6, '0') && e[45..45 + |m.body|] == m.body
            && e[45 + |m.body|..] == "\r\n"
  {
    hide Digits;
    Widths();
    assert Pow10(12) >= WORD;
    WholeField(m.uid, 12, ' ');
    WholeField(m.pid, 8, '0');
    WholeField(10000 + m.src, 8, '0');
    WholeField(m.lc, 4, '0');
    WholeField(|m.body|, 6, '0');
    MetadataSlices(m, m.body + "\r\n");
    hide Metadata, Field, PadLeft;
    var s := HEADER + Metadata(m) + (m.body + "\r\n");
    assert Encoded(m) == s;
    assert forall i, j :: 0 <= i <= j <= 38 ==> s[7..BODY_AT][i..j] == s[7 + i..7 + j];
  }

  lemma WholeField(n: nat, w: nat, pad: char)
    requires w > 0 && n < Pow10(w)
    ensures Field(n, w, pad) == PadLeft(Digits(n), w, pad)
  {
    DigitsLength(n, w);
  }

  // An issued message goes to handle_broadcast and to no other handler, from all encoded
  // bytes and from the bytes sent.
  lemma BroadReachesHandler(m: Message)
    ensures Route(Encoded(m)) == ToBroadcast && Route(Sent(m)) == ToBroadcast
  {
    hide Metadata;
    assert Encoded(m)[..5] == "BROAD" && Sent(m)[..5] == "BROAD";
  }

  // handle_client hands a BROAD to handle_broadcast, which then reads 38 bytes and cuts them at fixed offsets, and takes what has arrived of the message, at
  // most `length` bytes of it. None: the connection does not carry that much yet.
  function Decode(stream: string): Option<Received> {
    if |stream| < BODY_AT || Route(stream) != ToBroadcast then None
    else
      var meta := stream[7..BODY_AT];
      var length := Parse(meta[32..38]);
      var rest := stream[BODY_AT..];
      Some(Received(Parse(meta[..12]) % WORD, Parse(meta[12..20]), Parse(meta[20..28]),
                    Parse(meta[28..32]) % WORD, length,
                    if |rest| < length then rest else rest[..length]))
  }

  // ----- ACK and READY -----

  function AckBytes(pid: nat, uid: nat): string {
    "ACK00\r\nPID:" + Digits(pid) + " UID:" + Digits(uid)
  }

  function ReadyBytes(uid: nat): string {
    "READY\r\nUID:" + Digits(uid)
  }

  // The rest of s behind a literal of a scanf format.
  function Behind(s: string, literal: string): Option<string> {
    if literal <= s then Some(s[|literal|..]) else None
  }

  // handle_ack's sscanf: both fields or nothing.
  function DecodeAck(stream: string): Option<(nat, nat)> {
    if Route(stream) != ToAck || |stream| < 7 then None
    else
      var a := Behind(stream[7..], "PID:");
      if a.None? then None
      else
        var pid := ScanDigits(a.value);
        if pid.None? then None
        else
          var b := Behind(SkipSpace(pid.value.1), "UID:");
          if b.None? then None
          else
            var uid := ScanDigits(b.value);
            if uid.None? then None else Some((pid.value.0, uid.value.0))
  }

  // handle_ready's.
  function DecodeReady(stream: string): Option<nat> {
    if Route(stream) != ToReady || |stream| < 7 then None
    else
      var a := Behind(stream[7..], "UID:");
      if a.None? then None
      else
        var uid := ScanDigits(a.value);
        if uid.None? then None else Some(uid.value.0)
  }

  // An ACK goes to handle_ack and brings pid and uid there.
  lemma AckArrives(pid: nat, uid: nat)
    ensures Route(AckBytes(pid, uid)) == ToAck && DecodeAck(AckBytes(pid, uid)) == Some((pid, uid))
  {
    hide Digits, ScanDigits;
    var s := AckBytes(pid, uid);
    var t := "UID:" + Digits(uid);
    assert s == "ACK00\r\n" + ("PID:" + (Digits(pid) + (" " + t)));
    assert s[..5] == "ACK00" && s[7..] == "PID:" + (Digits(pid) + (" " + t));
    assert ("PID:" + (Digits(pid) + (" " + t)))[4..] == Digits(pid) + (" " + t);
    ScansDigits(pid, " " + t);
    assert SkipSpace(" " + t) == t by { assert (" " + t)[1..] == t; }
    assert t[4..] == Digits(uid) && Digits(uid) + [] == Digits(uid);
    ScansDigits(uid, []);
  }

  // A READY goes to handle_ready and brings the uid there.
  lemma ReadyArrives(uid: nat)
    ensures Route(ReadyBytes(uid)) == ToReady && DecodeReady(ReadyBytes(uid)) == Some(uid)
  {
    hide Digits, ScanDigits;
    var s := ReadyBytes(uid);
    assert s == "READY\r\n" + ("UID:" + Digits(uid));
    assert s[..5] == "READY" && s[7..] == "UID:" + Digits(uid);
    assert ("UID:" + Digits(uid))[4..] == Digits(uid) && Digits(uid) + [] == Digits(uid);
    ScansDigits(uid, []);
  }

  // ----- The fields of a BROAD -----

  // Widths that hold the message's numbers.
  predicate Fits(m: Message) {
    m.pid < 1_0000_0000 && BASEPORT + m.src < 1_0000_0000 && m.lc < 1_0000 && |m.body| < 100_0000
  }

  ghost predicate SameFields(r: Received, m: Message) {
    r.uid == m.uid && r.pid == m.pid && r.port == BASEPORT + m.src && r.lc == m.lc && r.length == |m.body|
  }

  lemma Widths()
    ensures Pow10(4) == 1_0000 && Pow10(6) == 100_0000 && Pow10(8) == 1_0000_0000 && Pow10(12) >= WORD
  {
    assert Pow10(2) == 100;
    assert Pow10(4) == 1_0000;
    assert Pow10(6) == 100_0000;
    assert Pow10(8) == 1_0000_0000;
    assert Pow10(10) == 100_0000_0000;
  }

  lemma MetadataSlices(m: Message, tail: string)
    ensures var s := HEADER + Metadata(m) + tail; var meta := s[7..BODY_AT];
            && s[..5] == HEADER[..5] && s[BODY_AT..] == tail
            && meta[..12] == Field(m.uid, 12, ' ') && meta[12..20] == Field(m.pid, 8, '0')
            && meta[20..28] == Field(BASEPORT + m.src, 8, '0') && meta[28..32] == Field(m.lc, 4, '0')
            && meta[32..38] == Field(|m.body|, 6, '0')
  {
    hide Field;
    var s := HEADER + Metadata(m) + tail;
    assert s[7..BODY_AT] == Metadata(m);
  }

  // Whatever follows the metadata, the receiver gets all five fields right exactly when
  // each number fits its field.
  lemma FieldsArrive(m: Message, tail: string)
    requires m.uid < WORD && m.lc < WORD
    ensures var s := HEADER + Metadata(m) + tail;
            Decode(s).Some? && (SameFields(Decode(s).value, m) <==> Fits(m))
    ensures var s := HEADER + Metadata(m) + tail;
            Fits(m) ==> Decode(s).value.body == tail[..if |tail| < |m.body| then |tail| else |m.body|]
  {
    hide Field, Parse;
    Widths();
    MetadataSlices(m, tail);
    FieldReadsBack(m.uid, 12, ' ');
    FieldReadsBack(m.pid, 8, '0');
    FieldReadsBack(BASEPORT + m.src, 8, '0');
    FieldReadsBack(|m.body|, 6, '0');
    FieldReadsBack(m.lc, 4, '0');
    TruncatedClock(m.lc);
  }

  // A four-character field never reaches the width of unsigned int.
  lemma TruncatedClock(lc: nat)
    ensures Parse(Field(lc, 4, '0')) < WORD
  {
    ParseBound(Field(lc, 4, '0'));
    Widths();
  }

  // All encoded bytes give back the message.
  lemma EncodedRoundTrip(m: Message)
    requires m.uid < WORD && m.lc < WORD && Fits(m)
    ensures Decode(Encoded(m)) == Some(Received(m.uid, m.pid, 10000 + m.src, m.lc, |m.body|, m.body))
  {
    hide Metadata;
    FieldsArrive(m, m.body + "\r\n");
    assert Encoded(m) == HEADER + Metadata(m) + (m.body + "\r\n");
  }

  // The bytes actually sent carry all metadata exactly when the message has at least five
  // bytes, and then they lack its last five.
  lemma SentRoundTrip(m: Message)
    requires m.uid < WORD && m.lc < WORD && Fits(m)
    ensures Decode(Sent(m)).Some? <==> |m.body| >= 5
    ensures |m.body| >= 5 ==>
              Decode(Sent(m)) == Some(Received(m.uid, m.pid, 10000 + m.src, m.lc, |m.body|, m.body[..|m.body| - 5]))
  {
    hide Metadata, Field;
    if |m.body| >= 5 {
      var n := |m.body| - 5;
      assert Sent(m) == HEADER + Metadata(m) + m.body[..n];
      FieldsArrive(m, m.body[..n]);
    }
  }
}
