// The bytes between client.c and server_mt.c: encode_set and encode_get, the server's
// staged reads of them, and the reply that send_message_format builds.
module Messages {
  import opened Wrappers
  import opened Buffers
  import opened Decimal
  import opened Hashing
  import opened Tables

  // ----- Client -----

  // encode_set without its terminator; %-8zu pads on the right.
  function SetHeader(userSize: nat, actualSize: nat, keySize: nat): string {
    "set\r\n" + SizeLine(userSize, 8) + SizeLine(actualSize, 8) + SizeLine(keySize, 6)
  }

  function SizeLine(n: nat, w: nat): string {
    PadRight(Digits(n), w) + "\r\n"
  }

  function SetBytes(key: string, value: string, userSize: nat): string {
    SetHeader(userSize, |value|, |key|) + key + "\r\n" + value + "\r\n"
  }

  function GetBytes(key: string): string {
    "get\r\n" + key + "\r\n"
  }

  method EncodeSetHeader(userSize: nat, actualSize: nat, keySize: nat, buffer: array<char>) returns (offset: nat)
    requires |SetHeader(userSize, actualSize, keySize)| <= buffer.Length
    modifies buffer
    ensures offset == |SetHeader(userSize, actualSize, keySize)|
    ensures buffer[..offset] == SetHeader(userSize, actualSize, keySize)
    ensures forall i :: offset <= i < buffer.Length ==> buffer[i] == old(buffer[i])
  {
    hide SizeLine;
    offset := CopyTo(buffer, 0, "set\r\n");
    offset := CopyTo(buffer, offset, SizeLine(userSize, 8));
    offset := CopyTo(buffer, offset, SizeLine(actualSize, 8));
    offset := CopyTo(buffer, offset, SizeLine(keySize, 6));
  }

  method EncodeSet(key: string, value: string, userSize: nat, buffer: array<char>)
    requires |SetBytes(key, value, userSize)| + 1 <= buffer.Length
    modifies buffer
    ensures var n := |SetBytes(key, value, userSize)|;
            && buffer[..n] == SetBytes(key, value, userSize) && buffer[n] == '\0'
            && forall i :: n < i < buffer.Length ==> buffer[i] == old(buffer[i])
  {
    hide SetHeader;
    var offset := EncodeSetHeader(userSize, |value|, |key|, buffer);
    offset := CopyTo(buffer, offset, key);
    offset := CopyTo(buffer, offset, "\r\n");
    offset := CopyTo(buffer, offset, value);
    offset := CopyTo(buffer, offset, "\r\n");
    buffer[offset] := '\0';
  }

  // main sends a buffer of `size` zeroed bytes into which the message was written.
  function SentBytes(message: string, size: nat): (s: string)
    ensures |s| == size
  {
    (message + Fill('\0', size))[..size]
  }

  // main's set branch allocates and sends 41 + L bytes, its get branch 13.
  function SentSet(key: string, value: string, userSize: nat): string {
    SentBytes(SetBytes(key, value, userSize), 41 + |value|)
  }

  function SentGet(key: string): string {
    SentBytes(GetBytes(key), 13)
  }

  // The set branch. `memory` begins where the buffer was allocated and reaches as far as
  // encode_set writes, which may be further than the buffer.
  method ClientSet(key: string, value: string, userSize: nat, memory: array<char>) returns (sent: string)
    requires memory.Length >= 41 + |value| && memory.Length > |SetBytes(key, value, userSize)|
    modifies memory
    ensures sent == SentSet(key, value, userSize)
    ensures forall i :: 41 + |value| <= i < memory.Length && |SetBytes(key, value, userSize)| < i ==>
              memory[i] == old(memory[i])
  {
    hide SetBytes;
    var size := 41 + |value|;
    Zero(memory, size);
    EncodeSet(key, value, userSize, memory);
    sent := memory[..size];
    SentIs(memory[..], SetBytes(key, value, userSize), size);
  }

  // The get branch.
  method ClientGet(key: string, memory: array<char>) returns (sent: string)
    requires memory.Length >= 13 && memory.Length > |GetBytes(key)|
    modifies memory
    ensures sent == SentGet(key)
    ensures forall i :: 13 <= i < memory.Length && |GetBytes(key)| < i ==> memory[i] == old(memory[i])
  {
    hide GetBytes;
    Zero(memory, 13);
    EncodeGet(key, memory);
    sent := memory[..13];
    SentIs(memory[..], GetBytes(key), 13);
  }

  method EncodeGet(key: string, buffer: array<char>)
    requires |GetBytes(key)| + 1 <= buffer.Length
    modifies buffer
    ensures var n := |GetBytes(key)|;
            && buffer[..n] == GetBytes(key) && buffer[n] == '\0'
            && forall i :: n < i < buffer.Length ==> buffer[i] == old(buffer[i])
  {
    var offset := CopyTo(buffer, 0, "get\r\n");
    assert buffer[..0] == [];
    offset := CopyTo(buffer, offset, key);
    offset := CopyTo(buffer, offset, "\r\n");
    buffer[offset] := '\0';
  }

  // memset(buffer, 0, size).
  method Zero(memory: array<char>, size: nat)
    requires size <= memory.Length
    modifies memory
    ensures forall i :: 0 <= i < memory.Length ==> memory[i] == if i < size then '\0' else old(memory[i])
  {
    for n := 0 to size
      invariant forall i :: 0 <= i < memory.Length ==> memory[i] == if i < n then '\0' else old(memory[i])
    {
      memory[n] := '\0';
    }
  }

  lemma SentIs(memory: string, message: string, size: nat)
    requires size <= |memory| && |message| < |memory| && memory[..|message|] == message
    requires forall i :: |message| <= i < size ==> memory[i] == '\0'
    ensures memory[..size] == SentBytes(message, size)
  {
    var n := |message|;
    forall i | 0 <= i < size ensures memory[i] == SentBytes(message, size)[i] {
      if i < n { assert memory[..n][i] == message[i]; }
    }
  }

  // The client's buffer is large enough exactly for keys of at most three bytes.
  lemma SetFitsIff(key: string, value: string, userSize: nat)
    requires |value| < 1_0000_0000 && userSize < 1_0000_0000 && |key| < 100_0000
    ensures |SetBytes(key, value, userSize)| < 41 + |value| <==> |key| <= 3
  {
    Widths();
    DigitsLength(userSize, 8);
    DigitsLength(|value|, 8);
    DigitsLength(|key|, 6);
  }

  lemma Widths()
    ensures Pow10(6) == 100_0000 && Pow10(8) == 1_0000_0000
  {
    assert Pow10(2) == 100;
    assert Pow10(4) == 1_0000;
  }

  // ----- Server -----

  // What a char array holds as a C string.
  function CString(s: string): (r: string)
    ensures '\0' !in r && |r| <= |s|
  {
    if s == [] || s[0] == '\0' then [] else [s[0]] + CString(s[1..])
  }

  predicate Delimiter(ch: char) {
    ch == '\r' || ch == '\n'
  }

  // strtok_r with "\r\n": skip delimiters, then everything up to the next one. The rest
  // starts behind that delimiter.
  function NextToken(s: string): Option<(string, string)> {
    if s == [] then None
    else if Delimiter(s[0]) then NextToken(s[1..])
    else Some((Token(s), Rest(s)))
  }

  function Token(s: string): (t: string)
    ensures |t| <= |s|
  {
    if s == [] || Delimiter(s[0]) then [] else [s[0]] + Token(s[1..])
  }

  function Rest(s: string): string {
    if s == [] then [] else if Delimiter(s[0]) then s[1..] else Rest(s[1..])
  }

  datatype Header = Header(userSize: nat, actualSize: nat, keySize: nat)

  // parse_header_set.
  function ParseHeaderSet(header: string): Option<Header> {
    var t1 := NextToken(header);
    if t1.None? then None
    else
      var t2 := NextToken(t1.value.1);
      if t2.None? then None
      else
        var t3 := NextToken(t2.value.1);
        if t3.None? then None
        else Some(Header(Parse(t1.value.0), Parse(t2.value.0), Parse(t3.value.0)))
  }

  // parse_header_get.
  function ParseHeaderGet(header: string): Option<string> {
    var t := NextToken(header);
    if t.None? then None else Some(t.value.0)
  }

  // handle_client up to the body of a set: 5 bytes of operation, 28 of header, the key; a
  // recv returns what there is when that is less. The key buffer is read back as a C string.
  function ReadSet(stream: string): Option<(Header, string, string)> {
    if !TakesSet(stream) then None
    else
      var n := if |stream| < 33 then |stream| else 33;
      var h := ParseHeaderSet(CString(stream[5..n]));
      if h.None? then None
      else
        var rest := stream[n..];
        var k := if |rest| < h.value.keySize then |rest| else h.value.keySize;
        Some((h.value, CString(rest[..k]), rest[k..]))
  }

  // The operation is a set.
  predicate TakesSet(stream: string) {
    |stream| >= 5 && stream[..5] == "set\r\n"
  }

  // handle_client for any other operation: the key is the first token of the next 12 bytes.
  function ReadGet(stream: string): Option<string> {
    var from := if |stream| < 5 then |stream| else 5;
    ParseHeaderGet(CString(stream[from..if |stream| < 17 then |stream| else 17]))
  }

  // The bytes that the first i recv calls returned.
  function Received(chunks: seq<nat>, i: nat): nat
    requires i <= |chunks|
  {
    if i == 0 then 0 else Received(chunks, i - 1) + chunks[i - 1]
  }

  // Some recv boundary falls right before, or inside, the last two bytes.
  ghost predicate HitsEdge(chunks: seq<nat>, actualSize: nat) {
    exists i :: 0 <= i <= |chunks| && actualSize <= Received(chunks, i) < actualSize + 2
  }

  lemma {:induction false} ReceivedGrows(chunks: seq<nat>, i: nat, j: nat)
    requires i <= j <= |chunks|
    ensures Received(chunks, i) <= Received(chunks, j)
  {
    if i < j { ReceivedGrows(chunks, i, j - 1); }
  }

  // How parse_body ends. Endless: the bytes run out, and recv is called for ever.
  datatype Body = Complete(text: string) | Partial | Endless

  // The outcome by what the connection delivers: complete unless a boundary falls on
  // actual_size or one past it, or fewer than actual_size bytes come at all. An empty value
  // is therefore always partial.
  ghost function BodyOf(stream: string, chunks: seq<nat>, actualSize: nat): Body
    requires Received(chunks, |chunks|) <= |stream|
  {
    if Received(chunks, |chunks|) < actualSize then Endless
    else if HitsEdge(chunks, actualSize) then Partial
    else Complete(stream[..actualSize + 2])
  }

  // parse_body: recv until actual_size bytes are in, asking for two more. chunks are the
  // sizes in which the connection hands its bytes over before it falls silent or closes.
  method ParseBody(stream: string, chunks: seq<nat>, actualSize: nat) returns (body: Body)
    requires Received(chunks, |chunks|) <= |stream|
    requires forall i :: 0 <= i < |chunks| ==> chunks[i] > 0
    ensures body == BodyOf(stream, chunks, actualSize)
  {
    var buffer := [];
    var k := 0;
    while |buffer| < actualSize && k < |chunks|
      invariant 0 <= k <= |chunks| && |buffer| <= actualSize + 2 && |buffer| <= |stream| && buffer == stream[..|buffer|]
      invariant |buffer| < actualSize + 2 ==> |buffer| == Received(chunks, k)
      invariant |buffer| == actualSize + 2 ==> Received(chunks, k) >= actualSize + 2
      invariant forall i :: 0 <= i < k ==> Received(chunks, i) < actualSize
    {
      ReceivedGrows(chunks, k + 1, |chunks|);
      var asked := actualSize + 2 - |buffer|;
      var n := if chunks[k] < asked then chunks[k] else asked;
      assert Received(chunks, k + 1) == Received(chunks, k) + chunks[k];
      buffer := buffer + stream[|buffer|..|buffer| + n];
      k := k + 1;
    }
    ReceivedGrows(chunks, k, |chunks|);
    if |buffer| < actualSize {
      return Endless;
    }
    if |buffer| == actualSize + 2 {
      forall i | 0 <= i <= |chunks| ensures !(actualSize <= Received(chunks, i) < actualSize + 2) {
        if i >= k { ReceivedGrows(chunks, k, i); }
      }
      return Complete(buffer);
    }
    assert actualSize <= Received(chunks, k) < actualSize + 2;
    return Partial;
  }

  // create_node: the value is the body as a C string, its size what strlen finds.
  function NodeRec(key: string, userSize: nat, body: string): Rec {
    Rec(key, CString(body), |CString(body)|, userSize)
  }

  // What becomes of a set: a record in the work queue, an error reply, or a worker that
  // never comes back.
  datatype Fate = Queued(rec: Rec) | Refused | Stuck

  // The bytes behind the key arrive in chunks of these sizes.
  ghost predicate Delivered(stream: string, chunks: seq<nat>) {
    && (forall i :: 0 <= i < |chunks| ==> chunks[i] > 0)
    && (ReadSet(stream).Some? ==> Received(chunks, |chunks|) <= |ReadSet(stream).value.2|)
  }

  ghost function Served(stream: string, chunks: seq<nat>): Fate
    requires Delivered(stream, chunks)
  {
    var h := ReadSet(stream);
    if h.None? then Refused
    else
      var (header, key, rest) := h.value;
      match BodyOf(rest, chunks, header.actualSize)
      case Complete(text) => Queued(NodeRec(key, header.userSize, text))
      case Partial => Refused
      case Endless => Stuck
  }

  // The set branch of handle_client.
  method ServeSet(stream: string, chunks: seq<nat>) returns (fate: Fate)
    requires Delivered(stream, chunks)
    ensures fate == Served(stream, chunks)
  {
    hide ReadSet, BodyOf;
    var h := ReadSet(stream);
    if h.None? {
      return Refused;
    }
    var (header, key, rest) := h.value;
    var body := ParseBody(rest, chunks, header.actualSize);
    match body {
      case Complete(text) => fate := Queued(NodeRec(key, header.userSize, text));
      case Partial => fate := Refused;
      case Endless => fate := Stuck;
    }
  }

  // What handle_client makes of a connection: nothing arrives, or the bytes go through the
  // set branch, or through the get branch with the key found there.
  datatype Handling = NoOperation | SetBranch(fate: Fate) | GetBranch(key: Option<string>)

  ghost function Handled(stream: string, chunks: seq<nat>): Handling
    requires Delivered(stream, chunks)
  {
    if stream == [] then NoOperation
    else if TakesSet(stream) then SetBranch(Served(stream, chunks))
    else GetBranch(ReadGet(stream))
  }

  // handle_client.
  method HandleClient(stream: string, chunks: seq<nat>) returns (h: Handling)
    requires Delivered(stream, chunks)
    ensures h == Handled(stream, chunks)
  {
    var operation := stream[..if |stream| < 5 then |stream| else 5];
    if operation == [] {
      h := NoOperation;
    } else if operation == "set\r\n" {
      var fate := ServeSet(stream, chunks);
      h := SetBranch(fate);
    } else {
      h := GetBranch(ReadGet(stream));
    }
  }

  // How much of CR LF END CR LF there is room for: with more than thirteen digits of
  // user_size the last snprintf cuts it.
  function EndSeen(digits: nat): string
    requires digits <= 20
  {
    "\r\nEND\r\n"[..if digits <= 13 then 7 else 20 - digits]
  }

  // What the client receives of a record: send stops at the first NUL, so a value_size
  // beyond the text, which copies the terminator and what lies behind it, cuts the reply off
  // after the value.
  function ReplySeen(r: Rec): string
    requires |Digits(r.userSize)| <= 20
  {
    "VALUE " + r.key + " " + Digits(r.userSize) + r.value
    + if r.valueSize == |r.value| then EndSeen(|Digits(r.userSize)|) else ""
  }

  // send_message_format. `memory` begins where its buffer of 28 + |key| + |value| bytes was
  // allocated and reaches as far as it writes, which is further when value_size exceeds the
  // text or user_size is long. `beyond` is what lies behind the copied value and its
  // terminator.
  method SendMessageFormat(r: Rec, beyond: string, memory: array<char>) returns (reply: string)
    requires '\0' !in r.key && '\0' !in r.value
    requires |r.value| <= r.valueSize <= |r.value| + 1 + |beyond|
    requires |Digits(r.userSize)| <= 20
    requires memory.Length >= 15 + |r.key| + |Digits(r.userSize)| + r.valueSize
    modifies memory
    ensures reply == ReplySeen(r)
    ensures forall i :: 15 + |r.key| + |Digits(r.userSize)| + r.valueSize <= i < memory.Length ==>
              memory[i] == old(memory[i])
  {
    hide Digits, CString;
    var size := 28 + |r.key| + |r.value|;
    var text := "VALUE " + r.key + " " + Digits(r.userSize);
    var copied := (r.value + "\0" + beyond)[..r.valueSize];
    var offset := CopyTo(memory, 0, text);
    assert memory[..0] == [] && [] + text == text;
    offset := CopyTo(memory, offset, copied);
    PutEnd(memory, offset, size);
    memory[offset + 7] := '\0';
    reply := CString(memory[..]);
    assert memory[..][..offset] == text + copied;
    CopiedIs(r.value, beyond, r.valueSize);
    if r.valueSize == |r.value| {
      WholeReply(r, text, memory[..]);
    } else {
      CutReply(r, text, copied, memory[..]);
    }
  }

  // snprintf(memory + offset, size - offset, "\r\nEND\r\n"): cut to what is left of size,
  // terminator included; the difference is unsigned, so past the end there is no limit.
  method PutEnd(memory: array<char>, offset: nat, size: nat)
    requires offset + 8 <= memory.Length
    modifies memory
    ensures memory[..offset] == old(memory[..offset])
    ensures forall i :: offset + 8 <= i < memory.Length ==> memory[i] == old(memory[i])
    ensures offset < size && size - offset <= 7 ==>
              memory[offset..size - 1] == "\r\nEND\r\n"[..size - offset - 1] && memory[size - 1] == '\0'
    ensures offset > size || size - offset >= 8 ==> memory[offset..offset + 7] == "\r\nEND\r\n"
  {
    if offset == size {
      return;
    }
    var room := if size < offset || size - offset > 8 then 7 else size - offset - 1;
    ghost var was := memory[..offset];
    var next := CopyTo(memory, offset, "\r\nEND\r\n"[..room]);
    ghost var now := memory[..next];
    memory[next] := '\0';
    assert memory[..next] == now == was + "\r\nEND\r\n"[..room];
    assert memory[..offset] == memory[..next][..offset] == was;
    assert memory[offset..next] == memory[..next][offset..] == "\r\nEND\r\n"[..room];
  }

  // A C string ends at the first NUL.
  lemma SeenUpToNul(memory: string, front: string, end: string)
    requires '\0' !in front && '\0' !in end
    requires |memory| > |front| + |end| && memory[..|front|] == front
    requires memory[|front|..|front| + |end|] == end && memory[|front| + |end|] == '\0'
    ensures CString(memory) == front + end
  {
    hide CString;
    TwoParts(memory, front, end);
    CStringUpTo(front + end, memory[|front| + |end|..]);
  }

  lemma WholeReply(r: Rec, text: string, seen: string)
    requires '\0' !in r.key && '\0' !in r.value && r.valueSize == |r.value| && |Digits(r.userSize)| <= 20
    requires text == "VALUE " + r.key + " " + Digits(r.userSize)
    requires var front, end := text + r.value, EndSeen(|Digits(r.userSize)|);
             && |seen| > |front| + |end| && seen[..|front|] == front
             && seen[|front|..|front| + |end|] == end && seen[|front| + |end|] == '\0'
    ensures CString(seen) == ReplySeen(r)
  {
    EndHasNoNul(|Digits(r.userSize)|);
    hide Digits, CString, EndSeen;
    NoNulInText(r);
    SeenUpToNul(seen, text + r.value, EndSeen(|Digits(r.userSize)|));
  }

  lemma CutReply(r: Rec, text: string, copied: string, seen: string)
    requires '\0' !in r.key && '\0' !in r.value && r.valueSize > |r.value| && |Digits(r.userSize)| <= 20
    requires text == "VALUE " + r.key + " " + Digits(r.userSize)
    requires |copied| > |r.value| && copied[..|r.value|] == r.value && copied[|r.value|] == '\0'
    requires |seen| >= |text| + |copied| && seen[..|text| + |copied|] == text + copied
    ensures CString(seen) == ReplySeen(r)
  {
    hide Digits, CString, EndSeen;
    NoNulInText(r);
    var x := text + copied;
    assert x[..|text|] == text && x[|text|..|text| + |r.value|] == r.value && x[|text| + |r.value|] == '\0';
    assert seen[..|text|] == x[..|text|] && seen[|text|..|text| + |r.value|] == x[|text|..|text| + |r.value|];
    assert seen[|text| + |r.value|] == x[|text| + |r.value|];
    SeenUpToNul(seen, text, r.value);
    assert text + r.value + "" == text + r.value;
  }

  lemma NoNulInText(r: Rec)
    requires '\0' !in r.key && '\0' !in r.value
    ensures '\0' !in "VALUE " + r.key + " " + Digits(r.userSize)
    ensures '\0' !in "VALUE " + r.key + " " + Digits(r.userSize) + r.value
  {
    hide Digits;
    NoNulInDigits(r.userSize);
  }

  // The bytes copied of a value: all of it, and its terminator if there is more.
  lemma CopiedIs(value: string, beyond: string, n: nat)
    requires |value| <= n <= |value| + 1 + |beyond|
    ensures var copied := (value + "\0" + beyond)[..n];
            && copied[..|value|] == value
            && (n == |value| ==> copied == value) && (n > |value| ==> copied[|value|] == '\0')
  {
  }

  lemma TwoParts(s: string, a: string, b: string)
    requires |s| >= |a| + |b| && s[..|a|] == a && s[|a|..|a| + |b|] == b
    ensures s == a + b + s[|a| + |b|..]
  {
    assert s == s[..|a|] + s[|a|..|a| + |b|] + s[|a| + |b|..];
  }

  lemma EndHasNoNul(digits: nat)
    requires digits <= 20
    ensures '\0' !in EndSeen(digits)
  {
  }

  lemma NoNulInDigits(n: nat)
    ensures '\0' !in Digits(n)
  {
    assert forall ch :: ch in Digits(n) ==> IsDigit(ch);
  }

  lemma CStringUpTo(s: string, t: string)
    requires '\0' !in s && t != [] && t[0] == '\0'
    ensures CString(s + t) == s
  {
    CStringPlain(s, t);
    assert CString(t) == [];
    assert s + [] == s;
  }

  // ----- Round trip -----

  // Neither CR nor LF nor NUL.
  ghost predicate Plain(s: string) {
    '\r' !in s && '\n' !in s && '\0' !in s
  }

  lemma {:induction false} TokenUpTo(x: string, t: string)
    requires Plain(x)
    ensures Token(x + "\r\n" + t) == x && Rest(x + "\r\n" + t) == "\n" + t
  {
    var s := x + "\r\n" + t;
    if x == [] {
      assert s[1..] == "\n" + t;
    } else {
      assert s[1..] == x[1..] + "\r\n" + t;
      TokenUpTo(x[1..], t);
    }
  }

  // A plain field followed by CR LF is the next token, also behind the LF of the one before.
  lemma FieldToken(x: string, t: string)
    requires Plain(x) && x != []
    ensures NextToken(x + "\r\n" + t) == Some((x, "\n" + t))
    ensures NextToken("\n" + (x + "\r\n" + t)) == Some((x, "\n" + t))
  {
    TokenUpTo(x, t);
    assert ("\n" + (x + "\r\n" + t))[1..] == x + "\r\n" + t;
  }

  lemma PaddedField(n: nat, w: nat)
    requires 0 < w && n < Pow10(w)
    ensures |PadRight(Digits(n), w)| == w && Plain(PadRight(Digits(n), w))
    ensures Parse(PadRight(Digits(n), w)) == n
  {
    var d := Digits(n);
    DigitsLength(n, w);
    assert PadRight(d, w) == d + Fill(' ', w - |d|);
    ParseDigits(n, Fill(' ', w - |d|));
  }

  lemma {:induction false} CStringPlain(s: string, t: string)
    requires '\0' !in s
    ensures CString(s + t) == s + CString(t)
  {
    if s == [] {
      assert s + t == t;
    } else {
      assert (s + t)[1..] == s[1..] + t;
      CStringPlain(s[1..], t);
    }
  }

  lemma CStringWhole(s: string)
    requires '\0' !in s
    ensures CString(s) == s
  {
    CStringPlain(s, []);
    assert s + [] == s;
  }

  // Where the sizes stand: the announced one first, then that of the value, then the key's.
  lemma HeaderLayout(userSize: nat, actualSize: nat, keySize: nat)
    requires userSize < 1_0000_0000 && actualSize < 1_0000_0000 && keySize < 100_0000
    ensures var h := SetHeader(userSize, actualSize, keySize);
            && |h| == 33 && h[..5] == "set\r\n"
            && Parse(h[5..13]) == userSize && Parse(h[15..23]) == actualSize && Parse(h[25..31]) == keySize
            && h[13..15] == h[23..25] == h[31..] == "\r\n"
  {
    hide PadRight, Digits, Parse, Pow10;
    Widths();
    PaddedField(userSize, 8);
    PaddedField(actualSize, 8);
    PaddedField(keySize, 6);
    var a, b, d := PadRight(Digits(userSize), 8), PadRight(Digits(actualSize), 8), PadRight(Digits(keySize), 6);
    HeaderSlices(a, b, d);
    assert SetHeader(userSize, actualSize, keySize) == "set\r\n" + (a + "\r\n") + (b + "\r\n") + (d + "\r\n");
  }

  // What follows the sizes.
  lemma SetLayout(key: string, value: string, userSize: nat)
    requires userSize < 1_0000_0000 && |value| < 1_0000_0000 && |key| < 100_0000
    ensures var s, k := SetBytes(key, value, userSize), 33 + |key|;
            && s[..33] == SetHeader(userSize, |value|, |key|)
            && s[33..k] == key && s[k..k + 2] == "\r\n" && s[k + 2..k + 2 + |value|] == value
            && s[k + 2 + |value|..] == "\r\n"
  {
    hide SetHeader;
    HeaderLayout(userSize, |value|, |key|);
  }

  lemma HeaderSlices(a: string, b: string, d: string)
    requires |a| == 8 && |b| == 8 && |d| == 6
    ensures var h := "set\r\n" + (a + "\r\n") + (b + "\r\n") + (d + "\r\n");
            && |h| == 33 && h[..5] == "set\r\n" && h[5..13] == a && h[15..23] == b && h[25..31] == d
            && h[13..15] == "\r\n" && h[23..25] == "\r\n" && h[31..] == "\r\n"
  {
  }

  // The 28 header bytes parse to the three sizes.
  lemma HeaderParses(userSize: nat, actualSize: nat, keySize: nat)
    requires userSize < 1_0000_0000 && actualSize < 1_0000_0000 && keySize < 100_0000
    ensures var h := SetHeader(userSize, actualSize, keySize);
            && |h| == 33 && h[..5] == "set\r\n" && '\0' !in h
            && ParseHeaderSet(h[5..]) == Some(Header(userSize, actualSize, keySize))
  {
    hide PadRight, Digits, Parse, Pow10;
    Widths();
    PaddedField(userSize, 8);
    PaddedField(actualSize, 8);
    PaddedField(keySize, 6);
    var a, b, d := PadRight(Digits(userSize), 8), PadRight(Digits(actualSize), 8), PadRight(Digits(keySize), 6);
    var t3 := d + "\r\n" + [];
    var t2 := b + "\r\n" + t3;
    assert SetHeader(userSize, actualSize, keySize)[5..] == a + "\r\n" + t2;
    FieldToken(a, t2);
    FieldToken(b, t3);
    FieldToken(d, []);
  }

  // Of any bytes in the set format, whoever sends them: the sizes, the key up to its first
  // NUL, and the rest.
  lemma RawSetRead(userSize: nat, actualSize: nat, key: string, rest: string)
    requires userSize < 1_0000_0000 && actualSize < 1_0000_0000 && |key| < 100_0000
    ensures ReadSet(SetHeader(userSize, actualSize, |key|) + (key + rest))
         == Some((Header(userSize, actualSize, |key|), CString(key), rest))
  {
    hide SetHeader, ParseHeaderSet, CString;
    HeaderParses(userSize, actualSize, |key|);
    var h := SetHeader(userSize, actualSize, |key|);
    CStringWhole(h[5..]);
    var s := h + (key + rest);
    assert s[..5] == h[..5] && s[5..33] == h[5..] && s[33..] == key + rest;
    assert (key + rest)[..|key|] == key && (key + rest)[|key|..] == rest;
  }

  // A stored value and a key end at their first NUL.
  lemma StoredUpToNul(key: string, v: string, w: string, userSize: nat)
    requires '\0' !in v
    ensures NodeRec(key, userSize, v + "\0" + w) == Rec(key, v, |v|, userSize)
    ensures CString(v + "\0" + w) == v
  {
    hide CString;
    assert v + "\0" + w == v + ("\0" + w);
    CStringUpTo(v, "\0" + w);
  }

  // What the server reads of a set: always the sizes; the key, and a body that starts with
  // CR LF, when the key has at most six bytes. What is left for the body shrinks with the key.
  lemma SetArrives(key: string, value: string, userSize: nat)
    requires '\0' !in key && '\0' !in value
    requires userSize < 1_0000_0000 && |value| < 1_0000_0000 && |key| < 100_0000
    ensures var r := ReadSet(SentSet(key, value, userSize));
            && r.Some? && r.value.0 == Header(userSize, |value|, |key|)
            && |r.value.2| == (if |key| <= |value| + 8 then |value| + 8 - |key| else 0)
            && (|key| <= 6 ==> r.value.1 == key && r.value.2[..|value| + 2] == "\r\n" + value)
  {
    hide SetHeader, ParseHeaderSet, Fill, CString;
    HeaderParses(userSize, |value|, |key|);
    var h := SetHeader(userSize, |value|, |key|);
    CStringWhole(h[5..]);
    CStringWhole(key);
    var s := SentSet(key, value, userSize);
    var tail := "\r\n" + Fill('\0', 41 + |value|);
    assert SetBytes(key, value, userSize) + Fill('\0', 41 + |value|) == h + (key + ("\r\n" + value) + tail);
    SetSlices(h, key, "\r\n" + value, tail, 8 + |value|);
  }

  // Where the server's reads cut the bytes.
  lemma SetSlices(h: string, key: string, body: string, tail: string, n: nat)
    requires |h| == 33 && n <= |key| + |body| + |tail|
    ensures var s := (h + (key + body + tail))[..33 + n];
            && s[..5] == h[..5] && s[5..33] == h[5..] && s[33..] == (key + body + tail)[..n]
            && (|key| + |body| <= n ==> s[33..][..|key|] == key && s[33..][|key|..][..|body|] == body)
  {
  }

  lemma {:induction false} TokenOnly(s: string)
    ensures Plain(Token(s)) || '\0' in s
  {
    if s != [] && !Delimiter(s[0]) { TokenOnly(s[1..]); }
  }

  lemma {:induction false} TokenNonEmpty(s: string)
    requires '\0' !in s
    ensures NextToken(s).Some? ==> NextToken(s).value.0 != [] && Plain(NextToken(s).value.0)
    ensures NextToken(s).Some? ==> |NextToken(s).value.0| <= |s|
  {
    if s != [] && Delimiter(s[0]) {
      TokenNonEmpty(s[1..]);
    } else {
      TokenOnly(s);
    }
  }

  lemma {:induction false} TokenEnds(x: string, t: string)
    requires Plain(x) && (t == [] || Delimiter(t[0]))
    ensures Token(x + t) == x
  {
    if x == [] {
      assert x + t == t;
    } else {
      assert (x + t)[1..] == x[1..] + t;
      TokenEnds(x[1..], t);
    }
  }

  // What follows the operation in the bytes of a get, as a C string: the key, then as much
  // of CR LF as the eight bytes leave room for.
  lemma GetText(key: string)
    requires Plain(key) && |key| <= 8
    ensures CString(SentGet(key)[5..]) == key + "\r\n"[..if |key| <= 6 then 2 else 8 - |key|]
  {
    var n := if |key| <= 6 then 2 else 8 - |key|;
    var x := key + "\r\n"[..n];
    var zeros := Fill('\0', 13)[..8 - |x|];
    assert SentGet(key)[5..] == x + zeros;
    assert '\0' !in x;
    CStringPlain(x, zeros);
    assert CString(zeros) == [];
    assert x + [] == x;
  }

  lemma GetReadIff(key: string)
    ensures ReadGet(SentGet(key)) == Some(key) <==> 0 < |key| <= 8 && Plain(key)
  {
    hide CString;
    var s := SentGet(key)[5..];
    assert ReadGet(SentGet(key)) == ParseHeaderGet(CString(s)) by { assert SentGet(key)[5..13] == s; }
    TokenNonEmpty(CString(s));
    if 0 < |key| <= 8 && Plain(key) {
      GetText(key);
      TokenEnds(key, "\r\n"[..if |key| <= 6 then 2 else 8 - |key|]);
    }
  }

  // The bytes of a get always take the get branch, and the server reads the key back there
  // exactly when it has one to eight bytes and holds neither CR nor LF nor NUL.
  lemma GetArrivesIff(key: string, chunks: seq<nat>)
    requires Delivered(SentGet(key), chunks)
    ensures var h := Handled(SentGet(key), chunks);
            h.GetBranch? && (h.key == Some(key) <==>
              0 < |key| <= 8 && '\r' !in key && '\n' !in key && '\0' !in key)
  {
    hide ReadGet;
    GetReadIff(key);
    assert SentGet(key)[..5] == "get\r\n";
    assert "get\r\n"[0] != "set\r\n"[0];
  }

  // Of a longer request the server takes the first twelve bytes behind the operation.
  lemma LongGetCut(key: string, tail: string, chunks: seq<nat>)
    requires |key| == 12 && Plain(key) && Delivered("get\r\n" + key + tail, chunks)
    ensures Handled("get\r\n" + key + tail, chunks) == GetBranch(Some(key))
  {
    hide CString;
    var s := "get\r\n" + key + tail;
    assert s[5..17] == key && s[..5] == "get\r\n";
    assert "get\r\n"[0] != "set\r\n"[0];
    CStringWhole(key);
    TokenEnds(key, []);
    assert key + [] == key;
  }

  // The record that a SET of this client is meant to store.
  function SetRec(key: string, value: string, userSize: nat): Rec {
    Rec(key, "\r\n" + value, |value| + 2, userSize)
  }

  // What the server makes of a set, however the connection cuts it up: it is stored if and
  // only if enough arrives and no boundary falls right before or inside the last two bytes
  // of the body. That never happens to keys of more than six bytes.
  lemma SetServed(key: string, value: string, userSize: nat, chunks: seq<nat>)
    requires '\0' !in key && '\0' !in value
    requires userSize < 1_0000_0000 && |value| < 1_0000_0000 && |key| < 100_0000
    requires Delivered(SentSet(key, value, userSize), chunks)
    ensures Handled(SentSet(key, value, userSize), chunks).SetBranch?
    ensures var fate := Handled(SentSet(key, value, userSize), chunks).fate;
            && fate == (if Received(chunks, |chunks|) < |value| then Stuck
                        else if HitsEdge(chunks, |value|) then Refused
                        else Queued(SetRec(key, value, userSize)))
            && (fate.Queued? ==> |key| <= 6)
  {
    hide SetBytes, SentSet;
    SetArrives(key, value, userSize);
    assert TakesSet(SentSet(key, value, userSize));
    hide ReadSet;
    CStringWhole("\r\n" + value);
    if Received(chunks, |chunks|) >= |value| && !HitsEdge(chunks, |value|) {
      assert Received(chunks, |chunks|) >= |value| + 2;
    }
  }

  // An empty value is always refused: nothing has been received at the start.
  lemma EmptyRefused(key: string, userSize: nat, chunks: seq<nat>)
    requires '\0' !in key && userSize < 1_0000_0000 && |key| < 100_0000
    requires Delivered(SentSet(key, "", userSize), chunks)
    ensures Handled(SentSet(key, "", userSize), chunks) == SetBranch(Refused)
  {
    hide SentSet, Delivered, Handled;
    SetServed(key, "", userSize, chunks);
    assert Received(chunks, 0) == 0;
  }

  // A key of more than eight bytes leaves too little of the message for the body: the worker
  // waits for ever, unless the value is empty.
  lemma LongKeyStuck(key: string, value: string, userSize: nat, chunks: seq<nat>)
    requires '\0' !in key && '\0' !in value && value != "" && |key| > 8
    requires userSize < 1_0000_0000 && |value| < 1_0000_0000 && |key| < 100_0000
    requires Delivered(SentSet(key, value, userSize), chunks)
    ensures Handled(SentSet(key, value, userSize), chunks) == SetBranch(Stuck)
  {
    hide ReadSet, SentSet, Handled, HitsEdge;
    SetArrives(key, value, userSize);
    SetServed(key, value, userSize, chunks);
  }

  // A set and then a get of the same key, whatever the connection does to the set: exactly
  // then is it queued, and once inserted into any table, the get is read as that key, finds
  // the record and is answered with the announced size and the value, out of a buffer that
  // is large enough.
  lemma SetThenGet(key: string, value: string, userSize: nat, chunks: seq<nat>, getChunks: seq<nat>, t: Table)
    requires key != [] && Plain(key) && '\0' !in value
    requires userSize < 1_0000_0000 && |value| < 1_0000_0000 && |key| < 100_0000
    requires Delivered(SentSet(key, value, userSize), chunks) && Delivered(SentGet(key), getChunks)
    ensures |Digits(userSize)| <= 8
    ensures Handled(SentSet(key, value, userSize), chunks).SetBranch?
    ensures var fate := Handled(SentSet(key, value, userSize), chunks).fate;
            && (fate.Queued? <==> Received(chunks, |chunks|) >= |value| && !HitsEdge(chunks, |value|))
            && (value == "" ==> fate == Refused)
            && (fate.Queued? ==>
                  && fate.rec.userSize == userSize
                  && Handled(SentGet(key), getChunks) == GetBranch(Some(key))
                  && Get(Tables.Insert(t, fate.rec), key) == Some(fate.rec)
                  && ReplySeen(fate.rec) ==
                     "VALUE " + key + " " + Digits(userSize) + "\r\n" + value + "\r\nEND\r\n"
                  && ReplyFits(fate.rec))
  {
    hide Bucket, Digits, SentSet, SentGet, Delivered, Handled, HitsEdge;
    SetServed(key, value, userSize, chunks);
    GetArrivesIff(key, getChunks);
    if value == "" { EmptyRefused(key, userSize, chunks); }
    DigitsLength(userSize, 8);
    Widths();
  }

  // With thirteen digits of user_size or fewer the closing line is whole; each digit more
  // costs one character of it, and a value_size beyond the text all of it.
  lemma ReplyCut(r: Rec)
    requires |Digits(r.userSize)| <= 20 && r.valueSize >= |r.value|
    ensures var front, d := "VALUE " + r.key + " " + Digits(r.userSize) + r.value, |Digits(r.userSize)|;
            var whole := front + "\r\nEND\r\n";
            && (r.valueSize == |r.value| && d <= 13 ==> ReplySeen(r) == whole)
            && (r.valueSize == |r.value| && d > 13 ==> |ReplySeen(r)| == |whole| - (d - 13) && ReplySeen(r) <= whole)
            && (r.valueSize > |r.value| ==> ReplySeen(r) == front)
  {
    hide Digits;
  }

  // send_message_format can be called on the record, and stays within its own buffer.
  ghost predicate ReplyFits(r: Rec) {
    && '\0' !in r.key && '\0' !in r.value && r.valueSize == |r.value|
    && 15 + |r.key| + |Digits(r.userSize)| + r.valueSize <= 28 + |r.key| + |r.value|
  }
}
