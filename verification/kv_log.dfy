// server_run.log as text: the line that handle_hash appends for a SET, and what the fgets
// and sscanf of init_hash_from_log make of the whole file. A value is written as it is, so
// its own line breaks start new lines, and those are scanned like any other.
module LogFiles {
  import opened Wrappers
  import opened Decimal
  import opened Tables

  const LINE: nat := 149        // fgets into line[150]
  const KEY: nat := 50          // key[50]
  const LINE_VALUE: nat := 700  // value[700]
  const SIZE_T: nat := 0x1_0000_0000_0000_0000

  // ----- Writing -----

  function Header(r: Rec): string {
    "SET " + r.key + " " + Digits(r.userSize) + " " + Digits(r.valueSize) + " "
  }

  function Rendered(r: Rec): string {
    Header(r) + r.value + "\n"
  }

  function LogText(log: seq<Rec>): string {
    if log == [] then [] else LogText(log[..|log| - 1]) + Rendered(log[|log| - 1])
  }

  // ----- fgets -----

  // What one fgets returns when it may take `room` characters.
  function FirstLine(text: string, room: nat): (l: string)
    ensures l <= text && |l| <= room
    ensures text != [] && room > 0 ==> l != []
  {
    if text == [] || room == 0 then []
    else if text[0] == '\n' then "\n"
    else [text[0]] + FirstLine(text[1..], room - 1)
  }

  function Lines(text: string): seq<string> {
    if text == [] then []
    else
      var l := FirstLine(text, LINE);
      [l] + Lines(text[|l|..])
  }

  ghost predicate EndsLine(s: string) {
    s == [] || s[|s| - 1] == '\n'
  }

  // Within a text that ends in a line break, fgets sees nothing of what follows.
  lemma {:induction false} FirstLineConcat(x: string, y: string, room: nat)
    requires x != [] && EndsLine(x)
    ensures FirstLine(x + y, room) == FirstLine(x, room)
  {
    if room > 0 && x[0] != '\n' {
      assert (x + y)[1..] == x[1..] + y;
      FirstLineConcat(x[1..], y, room - 1);
    }
  }

  lemma {:induction false} LinesConcat(x: string, y: string)
    requires EndsLine(x)
    ensures Lines(x + y) == Lines(x) + Lines(y)
    decreases |x|
  {
    if x == [] {
      assert x + y == y;
    } else {
      var l := FirstLine(x, LINE);
      FirstLineConcat(x, y, LINE);
      assert (x + y)[|l|..] == x[|l|..] + y;
      LinesConcat(x[|l|..], y);
    }
  }

  lemma FirstLineCons(ch: char, t: string, room: nat)
    requires ch != '\n' && room > 0
    ensures FirstLine([ch] + t, room) == [ch] + FirstLine(t, room - 1)
  {
    assert ([ch] + t)[1..] == t;
  }

  // A line begins with all of h if h holds no line break and fits.
  lemma {:induction false} FirstLineHead(h: string, t: string, room: nat)
    requires '\n' !in h && |h| <= room
    ensures FirstLine(h + t, room) == h + FirstLine(t, room - |h|)
  {
    hide FirstLine;
    if h == [] {
      assert h + t == t;
    } else {
      var n := |h| - 1;
      FirstLineCons(h[n], t, room - n);
      FirstLineHead(h[..n], [h[n]] + t, room);
      assert h[..n] + ([h[n]] + t) == h + t;
      assert h == h[..n] + [h[n]];
    }
  }

  // ----- sscanf(line, "SET %s %zu %zu %s", ...) -----

  function Word(s: string): (w: string)
    ensures w <= s
  {
    if s != [] && !IsSpace(s[0]) then [s[0]] + Word(s[1..]) else []
  }

  // %s, with the blanks in front of it: the word and what follows it.
  function ScanWord(s: string): Option<(string, string)> {
    var t := SkipSpace(s);
    var w := Word(t);
    if w == [] then None else Some((w, t[|w|..]))
  }

  // strtoul's result: too large a number saturates, a minus sign wraps around.
  function SizeOf(n: nat, minus: bool): nat {
    if n >= SIZE_T then SIZE_T - 1 else if minus then (SIZE_T - n) % SIZE_T else n
  }

  // %zu, with the blanks in front of it.
  function ScanSize(s: string): Option<(nat, string)> {
    var t := SkipSpace(s);
    var signed := t != [] && (t[0] == '+' || t[0] == '-');
    var u := if signed then t[1..] else t;
    var d := LeadingDigits(u);
    if d == [] then None else Some((SizeOf(ParseFrom(d, 0), signed && t[0] == '-'), u[|d|..]))
  }

  // How the call ends: three conversions, four, or fewer.
  datatype Scan =
    | ThreeFields(key: string, userSize: nat, valueSize: nat)
    | FourFields(word: string)
    | NoMatch

  function ScanLine(line: string): Scan {
    if |line| < 3 || line[..3] != "SET" then NoMatch
    else
      var k := ScanWord(line[3..]);
      if k.None? then NoMatch
      else
        var u := ScanSize(k.value.1);
        if u.None? then NoMatch
        else
          var v := ScanSize(u.value.1);
          if v.None? then NoMatch
          else
            var w := ScanWord(v.value.1);
            if w.None? then ThreeFields(k.value.0, u.value.0, v.value.0) else FourFields(w.value.0)
  }

  // ----- Reading -----

  // strndup.
  function Cut(s: string, n: nat): string {
    if |s| < n then s else s[..n]
  }

  predicate Loads(line: string) {
    ScanLine(line).ThreeFields? && ScanLine(line).valueSize < LINE_VALUE
  }

  // The record that a line puts into the table: only a three-field match does, and its value
  // is what the value buffer happens to hold.
  function LoadedLine(line: string, buffer: string): seq<Rec> {
    match ScanLine(line)
    case ThreeFields(key, userSize, valueSize) =>
      if valueSize < LINE_VALUE then [Rec(key, Cut(buffer, valueSize), valueSize, userSize)] else []
    case _ => []
  }

  // The value buffer after a line: a fourth word is stored there, and the line is ignored.
  function BufferLine(line: string, buffer: string): string {
    match ScanLine(line)
    case FourFields(word) => word
    case _ => buffer
  }

  function BufferAfter(lines: seq<string>, buffer: string): string {
    if lines == [] then buffer else BufferLine(lines[|lines| - 1], BufferAfter(lines[..|lines| - 1], buffer))
  }

  function LoadedLines(lines: seq<string>, buffer: string): seq<Rec> {
    if lines == [] then []
    else LoadedLines(lines[..|lines| - 1], buffer)
         + LoadedLine(lines[|lines| - 1], BufferAfter(lines[..|lines| - 1], buffer))
  }

  // What init_hash_from_log replays of a file when the value buffer starts with `buffer`.
  function Restored(text: string, buffer: string): seq<Rec> {
    LoadedLines(Lines(text), buffer)
  }

  lemma {:induction false} BufferConcat(x: seq<string>, y: seq<string>, buffer: string)
    ensures BufferAfter(x + y, buffer) == BufferAfter(y, BufferAfter(x, buffer))
  {
    if y == [] {
      assert x + y == x;
    } else {
      assert (x + y)[..|x + y| - 1] == x + y[..|y| - 1];
      BufferConcat(x, y[..|y| - 1], buffer);
    }
  }

  lemma {:induction false} LoadedConcat(x: seq<string>, y: seq<string>, buffer: string)
    ensures LoadedLines(x + y, buffer) == LoadedLines(x, buffer) + LoadedLines(y, BufferAfter(x, buffer))
  {
    hide LoadedLine, BufferLine;
    if y == [] {
      assert x + y == x;
    } else {
      var z := y[..|y| - 1];
      assert (x + y)[..|x + y| - 1] == x + z;
      LoadedConcat(x, z, buffer);
      BufferConcat(x, z, buffer);
    }
  }

  lemma LoadedOne(line: string, rest: seq<string>, buffer: string)
    ensures LoadedLines([line] + rest, buffer) == LoadedLine(line, buffer) + LoadedLines(rest, BufferLine(line, buffer))
    ensures BufferAfter([line] + rest, buffer) == BufferAfter(rest, BufferLine(line, buffer))
  {
    hide LoadedLine, BufferLine;
    LoadedConcat([line], rest, buffer);
    BufferConcat([line], rest, buffer);
    assert [line][..0] == [];
    assert BufferAfter([line], buffer) == BufferLine(line, BufferAfter([], buffer));
    assert LoadedLines([line], buffer) == LoadedLines([], buffer) + LoadedLine(line, BufferAfter([], buffer));
  }

  lemma {:induction false} NoneLoaded(lines: seq<string>, buffer: string)
    ensures LoadedLines(lines, buffer) == [] <==> forall i :: 0 <= i < |lines| ==> !Loads(lines[i])
  {
    hide ScanLine;
    if lines != [] {
      NoneLoaded(lines[..|lines| - 1], buffer);
    }
  }

  lemma ReadStep(lines: seq<string>, line: string, buffer: string)
    ensures LoadedLines(lines + [line], buffer) ==
            LoadedLines(lines, buffer) + LoadedLine(line, BufferAfter(lines, buffer))
    ensures BufferAfter(lines + [line], buffer) == BufferLine(line, BufferAfter(lines, buffer))
  {
    assert (lines + [line])[..|lines|] == lines;
  }

  // ----- The lines of one record -----

  // What the log's own format takes for granted: a key of one word that fits its buffer.
  ghost predicate Loggable(r: Rec) {
    && r.key != [] && |r.key| < KEY && (forall i :: 0 <= i < |r.key| ==> !IsSpace(r.key[i]))
    && r.userSize < SIZE_T && |r.value| == r.valueSize < SIZE_T
  }

  function RecordLines(r: Rec): (lines: seq<string>)
    ensures lines != []
  {
    Lines(Rendered(r))
  }

  // What the first line has room for of the value.
  function FirstPart(r: Rec): string {
    FirstLine(r.value + "\n", if |Header(r)| < LINE then LINE - |Header(r)| else 0)
  }

  ghost predicate Blank(s: string) {
    forall i :: 0 <= i < |s| ==> IsSpace(s[i])
  }

  lemma {:induction false} NoWordIffBlank(s: string)
    ensures ScanWord(s).None? <==> Blank(s)
  {
    if s != [] && IsSpace(s[0]) {
      NoWordIffBlank(s[1..]);
    }
  }

  lemma {:induction false} WordThen(w: string, t: string)
    requires forall i :: 0 <= i < |w| ==> !IsSpace(w[i])
    requires t == [] || IsSpace(t[0])
    ensures Word(w + t) == w
  {
    if w == [] {
      assert w + t == t;
    } else {
      assert (w + t)[1..] == w[1..] + t;
      WordThen(w[1..], t);
    }
  }

  lemma ScansWord(w: string, t: string)
    requires w != [] && forall i :: 0 <= i < |w| ==> !IsSpace(w[i])
    requires t == [] || IsSpace(t[0])
    ensures ScanWord(" " + (w + t)) == Some((w, t))
  {
    var s := w + t;
    assert (" " + s)[1..] == s;
    assert SkipSpace(s) == s;
    WordThen(w, t);
    assert s[|w|..] == t;
  }

  lemma ScansSize(n: nat, t: string)
    requires n < SIZE_T && (t == [] || IsSpace(t[0]))
    ensures ScanSize(" " + (Digits(n) + t)) == Some((n, t))
  {
    hide Digits;
    var d := Digits(n);
    var s := d + t;
    assert (" " + s)[1..] == s;
    assert SkipSpace(s) == s;
    DigitsThen(d, t);
    ParseDigits(n, []);
    assert d + [] == d && s[|d|..] == t;
  }

  // Numbers that do not fit 64 bits are read as the largest one that does, negative ones
  // wrap around.
  lemma ScansSizes(n: nat, t: string)
    requires t == [] || IsSpace(t[0])
    ensures ScanSize(Digits(n) + t) == Some((if n < 0x1_0000_0000_0000_0000 then n else 0xFFFF_FFFF_FFFF_FFFF, t))
    ensures ScanSize("+" + (Digits(n) + t)) == ScanSize(Digits(n) + t)
    ensures 0 < n < 0x1_0000_0000_0000_0000 ==>
              ScanSize("-" + (Digits(n) + t)) == Some((0x1_0000_0000_0000_0000 - n, t))
  {
    hide Digits;
    var d := Digits(n);
    var s := d + t;
    assert ("+" + s)[1..] == s && ("-" + s)[1..] == s;
    assert s[0] == d[0];
    assert SkipSpace(s) == s && SkipSpace("+" + s) == "+" + s && SkipSpace("-" + s) == "-" + s;
    DigitsThen(d, t);
    ParseDigits(n, []);
    assert d + [] == d && s[|d|..] == t;
  }

  // A line of this shape has three fields when nothing but blanks follows, else four.
  lemma ScansFields(key: string, userSize: nat, valueSize: nat, rest: string)
    requires key != [] && forall i :: 0 <= i < |key| ==> !IsSpace(key[i])
    requires userSize < SIZE_T && valueSize < SIZE_T && (rest == [] || IsSpace(rest[0]))
    ensures ScanLine("SET " + key + " " + Digits(userSize) + " " + Digits(valueSize) + rest) ==
              if ScanWord(rest).None? then ThreeFields(key, userSize, valueSize)
              else FourFields(ScanWord(rest).value.0)
  {
    hide Digits, ScanWord, ScanSize;
    var t2 := " " + (Digits(valueSize) + rest);
    var t1 := " " + (Digits(userSize) + t2);
    var line := "SET " + key + " " + Digits(userSize) + " " + Digits(valueSize) + rest;
    assert line == "SET" + (" " + (key + t1));
    assert line[3..] == " " + (key + t1) && line[..3] == "SET";
    ScansWord(key, t1);
    ScansSize(userSize, t2);
    ScansSize(valueSize, rest);
  }

  // The blank behind SET may be missing.
  lemma ScansGlued(key: string, userSize: nat, valueSize: nat)
    requires key != [] && forall i :: 0 <= i < |key| ==> !IsSpace(key[i])
    requires userSize < SIZE_T && valueSize < SIZE_T
    ensures ScanLine("SET" + key + " " + Digits(userSize) + " " + Digits(valueSize)) ==
              ThreeFields(key, userSize, valueSize)
  {
    hide Digits, ScanSize;
    var t2 := " " + (Digits(valueSize) + []);
    var t1 := " " + (Digits(userSize) + t2);
    var line := "SET" + key + " " + Digits(userSize) + " " + Digits(valueSize);
    assert Digits(valueSize) + [] == Digits(valueSize);
    assert line == "SET" + (key + t1);
    assert line[3..] == key + t1 && line[..3] == "SET";
    ScansWord(key, t1);
    assert ScanWord(key + t1) == Some((key, t1)) by { assert (" " + (key + t1))[1..] == key + t1; }
    ScansSize(userSize, t2);
    ScansSize(valueSize, []);
  }

  lemma HeaderFits(r: Rec)
    requires Loggable(r)
    ensures |Header(r)| <= 100 && '\n' !in Header(r)
  {
    hide Digits;
    assert Pow10(5) == 10_0000;
    assert Pow10(10) == 100_0000_0000;
    assert Pow10(15) == 1000_0000_0000_0000;
    assert Pow10(20) == 1_0000_0000_0000_0000_0000;
    DigitsLength(r.userSize, 20);
    DigitsLength(r.valueSize, 20);
  }

  // The first line of a record is its header and the beginning of its value; the rest of the
  // value makes the later lines.
  lemma FirstLineOf(r: Rec)
    requires Loggable(r)
    ensures RecordLines(r)[0] == Header(r) + FirstPart(r)
    ensures RecordLines(r)[1..] == Lines((r.value + "\n")[|FirstPart(r)|..])
  {
    hide Header, Lines;
    HeaderFits(r);
    var body := r.value + "\n";
    assert Rendered(r) == Header(r) + body;
    FirstLineHead(Header(r), body, LINE);
    assert Rendered(r)[|Header(r) + FirstPart(r)|..] == body[|FirstPart(r)|..];
    LinesUnfold(Rendered(r));
  }

  lemma LinesUnfold(text: string)
    requires text != []
    ensures Lines(text) == [FirstLine(text, LINE)] + Lines(text[|FirstLine(text, LINE)|..])
  {
  }

  ghost predicate StartsBlank(r: Rec) {
    Blank(FirstPart(r))
  }

  // A record is scanned as itself exactly when its value starts with a blank first line.
  lemma FirstLineScans(r: Rec)
    requires Loggable(r)
    ensures StartsBlank(r) ==> ScanLine(RecordLines(r)[0]) == ThreeFields(r.key, r.userSize, r.valueSize)
    ensures !StartsBlank(r) ==> ScanLine(RecordLines(r)[0]).FourFields?
  {
    hide ScanLine, Digits, RecordLines, FirstLine;
    FirstLineOf(r);
    var rest := " " + FirstPart(r);
    assert Header(r) + FirstPart(r) ==
           "SET " + r.key + " " + Digits(r.userSize) + " " + Digits(r.valueSize) + rest;
    ScansFields(r.key, r.userSize, r.valueSize, rest);
    NoWordIffBlank(rest);
    assert Blank(rest) <==> Blank(FirstPart(r)) by {
      assert rest[1..] == FirstPart(r);
      assert forall i :: 0 <= i < |FirstPart(r)| ==> rest[i + 1] == FirstPart(r)[i];
    }
  }

  // What loading a record would give if its lines held nothing but the record.
  function Loaded(r: Rec, buffer: string): seq<Rec> {
    if r.valueSize >= LINE_VALUE then [] else [r.(value := Cut(buffer, r.valueSize))]
  }

  // No line of the value itself loads.
  ghost predicate NoLaterRecord(r: Rec) {
    forall i :: 1 <= i < |RecordLines(r)| ==> !Loads(RecordLines(r)[i])
  }

  ghost predicate Clean(r: Rec) {
    (r.valueSize < LINE_VALUE ==> StartsBlank(r)) && NoLaterRecord(r)
  }

  lemma SplitRecord(r: Rec, buffer: string)
    ensures var ls := RecordLines(r);
            && LoadedLines(ls, buffer) == LoadedLine(ls[0], buffer) + LoadedLines(ls[1..], BufferLine(ls[0], buffer))
            && BufferAfter(ls, buffer) == BufferAfter(ls[1..], BufferLine(ls[0], buffer))
  {
    hide RecordLines, LoadedLine, BufferLine;
    var ls := RecordLines(r);
    assert ls == [ls[0]] + ls[1..];
    LoadedOne(ls[0], ls[1..], buffer);
  }

  lemma LaterLoadNothingIff(r: Rec, buffer: string)
    ensures LoadedLines(RecordLines(r)[1..], buffer) == [] <==> NoLaterRecord(r)
  {
    hide RecordLines, Loads;
    var ls := RecordLines(r);
    NoneLoaded(ls[1..], buffer);
    assert forall i :: 1 <= i < |ls| ==> ls[i] == ls[1..][i - 1];
    assert forall i :: 0 <= i < |ls[1..]| ==> ls[1..][i] == ls[i + 1];
  }

  lemma CleanLoads(r: Rec, buffer: string)
    requires Loggable(r) && Clean(r)
    ensures LoadedLines(RecordLines(r), buffer) == Loaded(r, buffer)
  {
    hide RecordLines, ScanLine, NoLaterRecord, StartsBlank, LoadedLines;
    FirstLineScans(r);
    SplitRecord(r, buffer);
    LaterLoadNothingIff(r, BufferLine(RecordLines(r)[0], buffer));
  }

  lemma UncleanDiffers(r: Rec) returns (buffer: string)
    requires Loggable(r) && !Clean(r)
    ensures LoadedLines(RecordLines(r), buffer) != Loaded(r, buffer)
  {
    hide RecordLines, ScanLine, NoLaterRecord, LoadedLines, FirstLine, Header;
    FirstLineScans(r);
    SplitRecord(r, "");
    SplitRecord(r, "x");
    LaterLoadNothingIff(r, BufferLine(RecordLines(r)[0], ""));
    if r.valueSize < LINE_VALUE && !StartsBlank(r) {
      assert r.valueSize > 0 by { if r.valueSize == 0 { EmptyStartsBlank(r); } }
      assert Loaded(r, "")[0].value != Loaded(r, "x")[0].value;
      buffer := if LoadedLines(RecordLines(r), "") != Loaded(r, "") then "" else "x";
    } else {
      buffer := "";
    }
  }

  lemma EmptyStartsBlank(r: Rec)
    requires r.value == []
    ensures StartsBlank(r)
  {
    assert r.value + "\n" == "\n";
  }

  // One record loads as itself, whatever the value buffer holds, exactly when it is clean:
  // its value starts with a blank line, unless it is too large anyway, and no later line of
  // the value loads.
  lemma RecordLoadsIff(r: Rec)
    requires Loggable(r)
    ensures (forall buffer :: LoadedLines(RecordLines(r), buffer) == Loaded(r, buffer)) <==> Clean(r)
  {
    hide RecordLines, LoadedLines, Loaded, Clean, Loggable;
    if Clean(r) {
      forall buffer ensures LoadedLines(RecordLines(r), buffer) == Loaded(r, buffer) {
        CleanLoads(r, buffer);
      }
    } else {
      var buffer := UncleanDiffers(r);
    }
  }

  // ----- The lines of a whole log -----

  lemma {:induction false} LogEndsLine(log: seq<Rec>)
    ensures EndsLine(LogText(log))
  {
    if log != [] {
      var r := log[|log| - 1];
      assert Rendered(r)[|Rendered(r)| - 1] == '\n';
    }
  }

  // The value buffer once the log has been scanned.
  function BufferAt(log: seq<Rec>, buffer: string): string {
    BufferAfter(Lines(LogText(log)), buffer)
  }

  lemma LogStep(log: seq<Rec>, buffer: string)
    requires log != []
    ensures var front, r := log[..|log| - 1], log[|log| - 1];
            && Restored(LogText(log), buffer) ==
               Restored(LogText(front), buffer) + LoadedLines(RecordLines(r), BufferAt(front, buffer))
            && BufferAt(log, buffer) == BufferAfter(RecordLines(r), BufferAt(front, buffer))
  {
    hide Lines, Rendered, LoadedLines, BufferAfter;
    var front, r := log[..|log| - 1], log[|log| - 1];
    LogEndsLine(front);
    LinesConcat(LogText(front), Rendered(r));
    LoadedConcat(Lines(LogText(front)), Lines(Rendered(r)), buffer);
    BufferConcat(Lines(LogText(front)), Lines(Rendered(r)), buffer);
  }

  // Every record loaded as itself, with the value buffer as it is by then.
  function AsLogged(log: seq<Rec>, buffer: string): seq<Rec> {
    if log == [] then []
    else AsLogged(log[..|log| - 1], buffer) + Loaded(log[|log| - 1], BufferAt(log[..|log| - 1], buffer))
  }

  lemma {:induction false} CleanLogLoads(log: seq<Rec>, buffer: string)
    requires forall i :: 0 <= i < |log| ==> Loggable(log[i]) && Clean(log[i])
    ensures Restored(LogText(log), buffer) == AsLogged(log, buffer)
  {
    hide Loggable, Clean, Loaded, BufferAt, RecordLines;
    if log != [] {
      var front, r := log[..|log| - 1], log[|log| - 1];
      CleanLogLoads(front, buffer);
      hide Restored, LoadedLines;
      LogStep(log, buffer);
      CleanLoads(r, BufferAt(front, buffer));
    }
  }

  ghost predicate Within(log: seq<Rec>, recs: set<Rec>) {
    forall i :: 0 <= i < |log| ==> log[i] in recs
  }

  // Every log over these records loads record by record exactly when each of them is clean.
  lemma LogLoadsIff(recs: set<Rec>)
    requires forall r :: r in recs ==> Loggable(r)
    ensures (forall log, buffer :: Within(log, recs) ==> Restored(LogText(log), buffer) == AsLogged(log, buffer))
       <==> (forall r :: r in recs ==> Clean(r))
  {
    hide Loggable, Clean, Restored, AsLogged, LogText;
    if forall r :: r in recs ==> Clean(r) {
      forall log, buffer | Within(log, recs) ensures Restored(LogText(log), buffer) == AsLogged(log, buffer) {
        CleanLogLoads(log, buffer);
      }
    } else {
      var r :| r in recs && !Clean(r);
      var buffer := UncleanDiffers(r);
      LogOfOne(r, buffer);
      assert Within([r], recs);
    }
  }

  lemma LogOfOne(r: Rec, buffer: string)
    ensures Restored(LogText([r]), buffer) == LoadedLines(RecordLines(r), buffer)
    ensures AsLogged([r], buffer) == Loaded(r, buffer)
  {
    hide RecordLines, LoadedLines, Loaded, LogText, Restored, BufferAt;
    assert [r][..0] == [];
    NothingLogged(buffer);
    LogStep([r], buffer);
  }

  lemma NothingLogged(buffer: string)
    ensures Restored(LogText([]), buffer) == [] && BufferAt([], buffer) == buffer
  {
  }

  lemma EmptyText()
    ensures Lines([]) == [] && LogText([]) == []
  {
  }

  // ----- What a query finds after loading -----

  // The record is loaded, from its own first line.
  ghost predicate Kept(r: Rec) {
    ScanLine(RecordLines(r)[0]) == ThreeFields(r.key, r.userSize, r.valueSize) && r.valueSize < LINE_VALUE
  }

  lemma KeptIff(r: Rec)
    requires Loggable(r)
    ensures Kept(r) <==> r.valueSize < 700 && StartsBlank(r)
  {
    hide ScanLine, RecordLines, StartsBlank;
    FirstLineScans(r);
  }

  // The line loads a record that the query can find.
  predicate LoadsFor(line: string, q: string) {
    Loads(line) && Candidate(ScanLine(line).key, q)
  }

  // Among the lines of r, none but r's own loads a record that the query can find.
  ghost predicate Harmless(r: Rec, q: string) {
    forall i :: 0 <= i < |RecordLines(r)| && LoadsFor(RecordLines(r)[i], q) ==> i == 0 && Kept(r)
  }

  lemma CleanIsHarmless(r: Rec, q: string)
    requires Loggable(r) && NoLaterRecord(r)
    ensures Harmless(r, q)
  {
    hide ScanLine, RecordLines, StartsBlank;
    FirstLineScans(r);
  }

  lemma {:induction false} NoCandidateLoaded(lines: seq<string>, buffer: string, q: string)
    requires forall i :: 0 <= i < |lines| ==> !LoadsFor(lines[i], q)
    ensures Latest(LoadedLines(lines, buffer), q) == None
  {
    hide ScanLine, Candidate, Latest;
    if lines != [] {
      var front, l := lines[..|lines| - 1], lines[|lines| - 1];
      NoCandidateLoaded(front, buffer, q);
      var b := BufferAfter(front, buffer);
      LatestOfBoth(LoadedLines(front, buffer), LoadedLine(l, b), q);
      NoneLatest(LoadedLine(l, b), q);
    } else {
      NoneLatest([], q);
    }
  }

  lemma LatestOfRecord(r: Rec, buffer: string, q: string)
    requires Harmless(r, q)
    ensures Latest(LoadedLines(RecordLines(r), buffer), q) ==
              if Kept(r) && Candidate(r.key, q) then Some(r.(value := Cut(buffer, r.valueSize))) else None
  {
    hide ScanLine, Candidate, RecordLines, Latest;
    var ls := RecordLines(r);
    SplitRecord(r, buffer);
    var b := BufferLine(ls[0], buffer);
    forall i | 0 <= i < |ls[1..]| ensures !LoadsFor(ls[1..][i], q) {
      assert ls[1..][i] == ls[i + 1];
    }
    NoCandidateLoaded(ls[1..], b, q);
    var first := LoadedLine(ls[0], buffer);
    LatestOfBoth(first, LoadedLines(ls[1..], b), q);
    if first == [] { NoneLatest([], q); } else { LatestOfOne(first[0], q); }
  }

  // The place in the log of the record that a query finds after loading, or -1.
  lemma {:induction false} RestoredLatest(log: seq<Rec>, buffer: string, q: string) returns (k: int)
    requires forall i :: 0 <= i < |log| ==> Harmless(log[i], q)
    ensures -1 <= k < |log|
    ensures forall i :: k < i < |log| ==> !(Kept(log[i]) && Candidate(log[i].key, q))
    ensures k == -1 ==> Latest(Restored(LogText(log), buffer), q) == None
    ensures k >= 0 ==>
              && Kept(log[k]) && Candidate(log[k].key, q)
              && Latest(Restored(LogText(log), buffer), q)
                 == Some(log[k].(value := Cut(BufferAt(log[..k], buffer), log[k].valueSize)))
  {
    hide Harmless, Kept, Candidate, RecordLines, Latest, LoadedLines, BufferAt, LogText;
    if log == [] {
      k := -1;
      EmptyText();
      NothingLoaded(buffer);
      NoneLatest([], q);
    } else {
      hide Restored, Cut;
      var front, r := log[..|log| - 1], log[|log| - 1];
      k := RestoredLatest(front, buffer, q);
      RestoredLatestStep(log, buffer, q);
      if Kept(r) && Candidate(r.key, q) {
        k := |log| - 1;
      } else if k >= 0 {
        assert front[..k] == log[..k];
      }
    }
  }

  lemma RestoredLatestStep(log: seq<Rec>, buffer: string, q: string)
    requires log != [] && Harmless(log[|log| - 1], q)
    ensures var front, r := log[..|log| - 1], log[|log| - 1];
            Latest(Restored(LogText(log), buffer), q) ==
              if Kept(r) && Candidate(r.key, q) then Some(r.(value := Cut(BufferAt(front, buffer), r.valueSize)))
              else Latest(Restored(LogText(front), buffer), q)
  {
    hide Harmless, Kept, Candidate, RecordLines, Latest, LoadedLines, BufferAt, LogText, Restored, Cut;
    var front, r := log[..|log| - 1], log[|log| - 1];
    LogStep(log, buffer);
    LatestOfRecord(r, BufferAt(front, buffer), q);
    LatestOfBoth(Restored(LogText(front), buffer), LoadedLines(RecordLines(r), BufferAt(front, buffer)), q);
  }

  lemma NothingLoaded(buffer: string)
    ensures LoadedLines([], buffer) == []
  {
  }

  // Whatever a query can find after loading has the key of a logged record.
  lemma {:induction false} RestoredCandidates(log: seq<Rec>, buffer: string, q: string)
    requires forall i :: 0 <= i < |log| ==> Harmless(log[i], q)
    ensures forall x :: x in Restored(LogText(log), buffer) && Candidate(x.key, q) ==>
              exists i :: 0 <= i < |log| && log[i].key == x.key
  {
    hide Harmless, Candidate, RecordLines, LoadedLines, BufferAt;
    if log == [] {
      EmptyText();
      NothingLoaded(buffer);
    } else {
      hide Restored;
      var front, r := log[..|log| - 1], log[|log| - 1];
      RestoredCandidates(front, buffer, q);
      LogStep(log, buffer);
      RecordCandidates(r, BufferAt(front, buffer), q);
      forall x | x in Restored(LogText(log), buffer) && Candidate(x.key, q)
        ensures exists i :: 0 <= i < |log| && log[i].key == x.key
      {
        if x in Restored(LogText(front), buffer) {
          var i :| 0 <= i < |front| && front[i].key == x.key;
          assert log[i].key == x.key;
        } else {
          assert log[|log| - 1].key == x.key;
        }
      }
    }
  }

  lemma RecordCandidates(r: Rec, buffer: string, q: string)
    requires Harmless(r, q)
    ensures forall x :: x in LoadedLines(RecordLines(r), buffer) && Candidate(x.key, q) ==> x.key == r.key
  {
    hide ScanLine, Candidate, RecordLines;
    forall x | x in LoadedLines(RecordLines(r), buffer) && Candidate(x.key, q) ensures x.key == r.key {
      var i := LoadedFrom(RecordLines(r), buffer, x);
    }
  }

  lemma {:induction false} LoadedFrom(lines: seq<string>, buffer: string, x: Rec) returns (i: nat)
    requires x in LoadedLines(lines, buffer)
    ensures i < |lines| && Loads(lines[i]) && ScanLine(lines[i]).key == x.key
  {
    hide ScanLine;
    var front, l := lines[..|lines| - 1], lines[|lines| - 1];
    if x in LoadedLines(front, buffer) {
      i := LoadedFrom(front, buffer, x);
    } else {
      i := |lines| - 1;
    }
  }

  // ----- Keys and sizes survive, values do not -----

  // The records that loading keeps.
  ghost function KeptOnly(log: seq<Rec>): seq<Rec> {
    if log == [] then []
    else KeptOnly(log[..|log| - 1]) + if Kept(log[|log| - 1]) then [log[|log| - 1]] else []
  }

  lemma {:induction false} KeptLatest(log: seq<Rec>, q: string, k: int)
    requires -1 <= k < |log|
    requires forall i :: k < i < |log| ==> !(Kept(log[i]) && Candidate(log[i].key, q))
    requires k >= 0 ==> Kept(log[k]) && Candidate(log[k].key, q)
    ensures Latest(KeptOnly(log), q) == if k >= 0 then Some(log[k]) else None
  {
    hide Kept, Candidate, Latest;
    if log == [] {
      NoneLatest([], q);
    } else {
      var front, r := log[..|log| - 1], log[|log| - 1];
      var last := if Kept(r) then [r] else [];
      LatestOfBoth(KeptOnly(front), last, q);
      if Kept(r) { LatestOfOne(r, q); } else { NoneLatest([], q); }
      if k < |log| - 1 {
        KeptLatest(front, q, k);
      }
    }
  }

  // Whatever the value buffer holds, a query finds after loading the key and sizes of the
  // latest logged record that loading keeps.
  lemma LoadKeepsSizes(log: seq<Rec>, buffer: string, q: string)
    requires forall i :: 0 <= i < |log| ==> Harmless(log[i], q)
    ensures Latest(Restored(LogText(log), buffer), q).Some? <==> Latest(KeptOnly(log), q).Some?
    ensures Latest(KeptOnly(log), q).Some? ==>
              var r, l := Latest(KeptOnly(log), q).value, Latest(Restored(LogText(log), buffer), q).value;
              r.(value := l.value) == l
  {
    hide Harmless, Kept, Candidate, Latest, Restored, LogText, BufferAt, KeptOnly;
    var k := RestoredLatest(log, buffer, q);
    KeptLatest(log, q, k);
  }

  function KeyAndSizes(r: Option<Rec>): Option<(string, nat, nat)> {
    if r.Some? then Some((r.value.key, r.value.userSize, r.value.valueSize)) else None
  }

  // The fields of the last of these lines that loads a record for the query.
  function LastFor(lines: seq<string>, q: string): Option<(string, nat, nat)> {
    if lines == [] then None
    else
      var l := lines[|lines| - 1];
      if LoadsFor(l, q) then Some((ScanLine(l).key, ScanLine(l).userSize, ScanLine(l).valueSize))
      else LastFor(lines[..|lines| - 1], q)
  }

  lemma {:induction false} LastForIsLatest(lines: seq<string>, buffer: string, q: string)
    ensures KeyAndSizes(Latest(LoadedLines(lines, buffer), q)) == LastFor(lines, q)
  {
    hide ScanLine, Candidate, Latest;
    if lines == [] {
      NoneLatest([], q);
    } else {
      var front, l := lines[..|lines| - 1], lines[|lines| - 1];
      LastForIsLatest(front, buffer, q);
      var loaded := LoadedLine(l, BufferAfter(front, buffer));
      LatestOfBoth(LoadedLines(front, buffer), loaded, q);
      if loaded == [] { NoneLatest([], q); } else { LatestOfOne(loaded[0], q); }
    }
  }

  // What the query is meant to find of this record after loading.
  function Due(r: Rec, q: string): Option<(string, nat, nat)> {
    if r.valueSize < LINE_VALUE && Candidate(r.key, q) then Some((r.key, r.userSize, r.valueSize)) else None
  }

  // The last line of r that loads for the query carries r's own key and sizes; there is none
  // if r is too large or not found by the query.
  predicate AnswersAsItself(r: Rec, q: string) {
    LastFor(RecordLines(r), q) == Due(r, q)
  }

  function SmallOnly(log: seq<Rec>): seq<Rec> {
    if log == [] then []
    else SmallOnly(log[..|log| - 1]) + if log[|log| - 1].valueSize < LINE_VALUE then [log[|log| - 1]] else []
  }

  lemma QueryStep(log: seq<Rec>, buffer: string, q: string)
    requires log != []
    ensures var front, r := log[..|log| - 1], log[|log| - 1];
            && KeyAndSizes(Latest(Restored(LogText(log), buffer), q)) ==
               (if LastFor(RecordLines(r), q).Some? then LastFor(RecordLines(r), q)
                else KeyAndSizes(Latest(Restored(LogText(front), buffer), q)))
            && KeyAndSizes(Latest(SmallOnly(log), q)) ==
               (if Due(r, q).Some? then Due(r, q) else KeyAndSizes(Latest(SmallOnly(front), q)))
  {
    hide Candidate, RecordLines, Latest, LoadedLines, BufferAt, LogText, Restored, LastFor;
    var front, r := log[..|log| - 1], log[|log| - 1];
    LogStep(log, buffer);
    var loaded := LoadedLines(RecordLines(r), BufferAt(front, buffer));
    LatestOfBoth(Restored(LogText(front), buffer), loaded, q);
    LastForIsLatest(RecordLines(r), BufferAt(front, buffer), q);
    var last := if r.valueSize < LINE_VALUE then [r] else [];
    LatestOfBoth(SmallOnly(front), last, q);
    if last == [] { NoneLatest([], q); } else { LatestOfOne(r, q); }
  }

  lemma NothingFound(buffer: string, q: string)
    ensures Latest(Restored(LogText([]), buffer), q) == None && Latest(SmallOnly([]), q) == None
  {
    EmptyText();
    NothingLoaded(buffer);
  }

  lemma {:induction false} QueryLoads(log: seq<Rec>, buffer: string, q: string)
    requires forall i :: 0 <= i < |log| ==> AnswersAsItself(log[i], q)
    ensures KeyAndSizes(Latest(Restored(LogText(log), buffer), q)) == KeyAndSizes(Latest(SmallOnly(log), q))
  {
    hide Candidate, RecordLines, Latest, LogText, Restored, LastFor, SmallOnly, Due, KeyAndSizes;
    if log == [] {
      NothingFound(buffer, q);
    } else {
      QueryLoads(log[..|log| - 1], buffer, q);
      QueryStep(log, buffer, q);
    }
  }

  // For one query, exactly: after loading any log over these records it finds the key and
  // sizes of the latest of them that is not too large, if and only if the last line of each
  // that loads for the query carries the record's own key and sizes.
  lemma QueryLoadsIff(recs: set<Rec>, q: string)
    ensures (forall log, buffer :: Within(log, recs) ==>
               KeyAndSizes(Latest(Restored(LogText(log), buffer), q)) == KeyAndSizes(Latest(SmallOnly(log), q)))
       <==> (forall r :: r in recs ==> AnswersAsItself(r, q))
  {
    hide Candidate, RecordLines, Latest, LogText, Restored, LastFor, SmallOnly, Due, KeyAndSizes;
    if forall r :: r in recs ==> AnswersAsItself(r, q) {
      forall log, buffer | Within(log, recs)
        ensures KeyAndSizes(Latest(Restored(LogText(log), buffer), q)) == KeyAndSizes(Latest(SmallOnly(log), q))
      {
        QueryLoads(log, buffer, q);
      }
    } else {
      var r :| r in recs && !AnswersAsItself(r, q);
      SingleDiffers(r, "", q);
      assert Within([r], recs);
    }
  }

  lemma SingleDiffers(r: Rec, buffer: string, q: string)
    requires !AnswersAsItself(r, q)
    ensures KeyAndSizes(Latest(Restored(LogText([r]), buffer), q)) != KeyAndSizes(Latest(SmallOnly([r]), q))
  {
    hide Candidate, RecordLines, Latest, LogText, Restored, LastFor, SmallOnly;
    assert [r][..0] == [];
    QueryStep([r], buffer, q);
    NothingFound(buffer, q);
  }

  // Harmless records that are kept, too large or not looked for answer as themselves.
  lemma HarmlessAnswers(r: Rec, q: string)
    requires Harmless(r, q) && (Candidate(r.key, q) && r.valueSize < LINE_VALUE ==> Kept(r))
    ensures AnswersAsItself(r, q)
  {
    hide ScanLine, Candidate, RecordLines, Latest, LoadedLines, LastFor;
    LastForIsLatest(RecordLines(r), "", q);
    LatestOfRecord(r, "", q);
  }

  lemma CutIff(value: string, buffer: string)
    ensures Cut(buffer, |value|) == value <==> value <= buffer
  {
  }

  // A record comes back with its value exactly when it is small and the value buffer holds
  // the value, in front of anything else.
  lemma FaithfulIff(r: Rec, buffer: string)
    requires |r.value| == r.valueSize
    ensures Loaded(r, buffer) == [r] <==> r.valueSize < 700 && r.value <= buffer
  {
    if r.valueSize < LINE_VALUE {
      assert Loaded(r, buffer)[0].value == Cut(buffer, r.valueSize);
      CutIff(r.value, buffer);
    }
  }

  // Record i is small, and the value buffer holds its value when its line is read.
  predicate HeldAt(log: seq<Rec>, i: int, buffer: string)
    requires 0 <= i < |log|
  {
    log[i].valueSize < 700 && log[i].value <= BufferAt(log[..i], buffer)
  }

  lemma HeldFront(log: seq<Rec>, buffer: string)
    requires log != []
    ensures var n := |log| - 1;
            (forall i :: 0 <= i < |log| ==> HeldAt(log, i, buffer)) <==>
            HeldAt(log, n, buffer) && forall i :: 0 <= i < |log[..n]| ==> HeldAt(log[..n], i, buffer)
  {
    hide BufferAt;
    var front := log[..|log| - 1];
    forall i | 0 <= i < |front| ensures HeldAt(front, i, buffer) <==> HeldAt(log, i, buffer) {
      assert front[i] == log[i] && front[..i] == log[..i];
    }
  }

  // A log of clean records comes back whole exactly when each is small and its value is in
  // the value buffer when its line is read.
  lemma {:induction false} FaithfulLoadIff(log: seq<Rec>, buffer: string)
    requires forall i :: 0 <= i < |log| ==> Loggable(log[i]) && Clean(log[i])
    ensures Restored(LogText(log), buffer) == log <==>
              forall i :: 0 <= i < |log| ==> HeldAt(log, i, buffer)
  {
    hide Clean, Restored, LogText, BufferAt;
    CleanLogLoads(log, buffer);
    AsLoggedIff(log, buffer);
  }

  lemma {:induction false} AsLoggedIff(log: seq<Rec>, buffer: string)
    requires forall i :: 0 <= i < |log| ==> |log[i].value| == log[i].valueSize
    ensures |AsLogged(log, buffer)| <= |log|
    ensures AsLogged(log, buffer) == log <==>
              forall i :: 0 <= i < |log| ==> HeldAt(log, i, buffer)
  {
    hide BufferAt, Loaded;
    if log != [] {
      var front, r := log[..|log| - 1], log[|log| - 1];
      AsLoggedIff(front, buffer);
      HeldFront(log, buffer);
      FaithfulIff(r, BufferAt(front, buffer));
      LoadedAtMostOne(r, BufferAt(front, buffer));
      var x, y := AsLogged(front, buffer), Loaded(r, BufferAt(front, buffer));
      assert AsLogged(log, buffer) == x + y && log == front + [r] && |y| <= 1;
      SameParts(x, y, front, r);
    }
  }

  lemma LoadedAtMostOne(r: Rec, buffer: string)
    ensures |Loaded(r, buffer)| <= 1
  {
  }

  lemma SameParts(x: seq<Rec>, y: seq<Rec>, front: seq<Rec>, r: Rec)
    requires |x| <= |front| && |y| <= 1
    ensures x + y == front + [r] <==> x == front && y == [r]
  {
    if x + y == front + [r] {
      assert |x + y| == |x| + |y|;
      assert x == (x + y)[..|x|] && y == (x + y)[|x|..];
    }
  }

  // The record is clean, and none of its lines stores a fourth word.
  ghost predicate Quiet(r: Rec) {
    Loggable(r) && StartsBlank(r) && forall i :: 1 <= i < |RecordLines(r)| ==> Passed(RecordLines(r)[i])
  }

  predicate Passed(line: string) {
    !Loads(line) && !ScanLine(line).FourFields?
  }

  lemma {:induction false} QuietLines(lines: seq<string>, buffer: string)
    requires forall i :: 0 <= i < |lines| ==> Passed(lines[i])
    ensures LoadedLines(lines, buffer) == [] && BufferAfter(lines, buffer) == buffer
  {
    hide ScanLine;
    if lines != [] {
      QuietLines(lines[..|lines| - 1], buffer);
    }
  }

  lemma QuietLoads(r: Rec, buffer: string)
    requires Quiet(r)
    ensures LoadedLines(RecordLines(r), buffer) == Loaded(r, buffer)
    ensures BufferAfter(RecordLines(r), buffer) == buffer
  {
    hide ScanLine, RecordLines, StartsBlank, BufferAfter, LoadedLines, Loggable;
    FirstLineScans(r);
    SplitRecord(r, buffer);
    var ls := RecordLines(r);
    forall i | 0 <= i < |ls[1..]| ensures Passed(ls[1..][i]) {
      assert ls[1..][i] == ls[i + 1];
    }
    QuietLines(ls[1..], BufferLine(ls[0], buffer));
  }

  lemma {:induction false} QuietLogLoads(log: seq<Rec>, buffer: string)
    requires forall i :: 0 <= i < |log| ==> Quiet(log[i])
    ensures Restored(LogText(log), buffer) == AsLogged(log, buffer) && BufferAt(log, buffer) == buffer
  {
    hide Quiet, Loaded, RecordLines, LoadedLines;
    if log == [] {
      NothingLoaded(buffer);
    } else {
      hide BufferAt, Restored;
      var front, r := log[..|log| - 1], log[|log| - 1];
      QuietLogLoads(front, buffer);
      LogStep(log, buffer);
      QuietLoads(r, buffer);
    }
  }

  // Loading never looks at the values of quiet records: two logs of such records that
  // differ in nothing but the values, not in their sizes, load the same.
  lemma {:induction false} LoadIgnoresValues(log1: seq<Rec>, log2: seq<Rec>, buffer: string)
    requires |log1| == |log2|
    requires forall i :: 0 <= i < |log1| ==> Quiet(log1[i]) && Quiet(log2[i])
    requires forall i :: 0 <= i < |log1| ==> log1[i].(value := log2[i].value) == log2[i]
    ensures Restored(LogText(log1), buffer) == Restored(LogText(log2), buffer)
  {
    hide Quiet, LogText, Restored, BufferAt;
    QuietLogLoads(log1, buffer);
    QuietLogLoads(log2, buffer);
    if log1 != [] {
      var f1, f2 := log1[..|log1| - 1], log2[..|log2| - 1];
      LoadIgnoresValues(f1, f2, buffer);
      QuietLogLoads(f1, buffer);
      QuietLogLoads(f2, buffer);
    }
  }

  lemma {:induction false} BufferStart(lines: seq<string>, buffer: string)
    requires !("\r" <= buffer)
    ensures !("\r" <= BufferAfter(lines, buffer))
  {
    if lines != [] {
      var front, l := lines[..|lines| - 1], lines[|lines| - 1];
      BufferStart(front, buffer);
      FourthIsWord(l);
    }
  }

  lemma FourthIsWord(line: string)
    ensures ScanLine(line).FourFields? ==> !("\r" <= ScanLine(line).word)
  {
    hide ScanSize, SkipSpace;
    assert forall s: string :: Word(s) != [] ==> !IsSpace(Word(s)[0]);
  }

  // No file brings a value back that starts with CR, as every value sent by the client
  // does, unless the buffer on the stack started with one before anything was read.
  lemma {:induction false} ValuesDoNotComeBack(lines: seq<string>, buffer: string)
    requires !("\r" <= buffer)
    ensures forall x :: x in LoadedLines(lines, buffer) ==> !("\r" <= x.value)
  {
    hide ScanLine;
    if lines != [] {
      var front := lines[..|lines| - 1];
      ValuesDoNotComeBack(front, buffer);
      BufferStart(front, buffer);
    }
  }

  // ----- What the client's SETs look like in the log -----

  lemma BlankFirstPart(value: string, room: nat)
    requires room >= 2
    ensures FirstLine("\r\n" + value, room) == "\r\n" && Blank("\r\n")
  {
    var s := "\r\n" + value;
    assert s[0] == '\r' && s[1..] == "\n" + value;
    assert FirstLine(s[1..], room - 1) == "\n";
    assert ['\r'] + "\n" == "\r\n";
  }

  lemma ClientLoggable(key: string, value: string, userSize: nat)
    requires 0 < |key| < 50
    requires forall i :: 0 <= i < |key| ==> key[i] as int != 32 && !(9 <= key[i] as int <= 13)
    requires userSize < 0x1_0000_0000_0000_0000 && |value| < 0x1_0000_0000_0000_0000
    ensures Loggable(Rec(key, value, |value|, userSize))
  {
  }

  // The record that a SET of the client leads to: its first line is always blank behind the
  // header, and its later lines are the lines of the value the user typed.
  lemma ClientRecord(key: string, value: string, userSize: nat)
    requires 0 < |key| < 50
    requires forall i :: 0 <= i < |key| ==> key[i] as int != 32 && !(9 <= key[i] as int <= 13)
    requires userSize < 0x1_0000_0000_0000_0000 && |value| + 2 < 0x1_0000_0000_0000_0000
    ensures var r := Rec(key, "\r\n" + value, |value| + 2, userSize);
            && Loggable(r) && (Kept(r) <==> |value| < 698)
            && RecordLines(r)[1..] == Lines(value + "\n")
  {
    hide Lines, Header, Loggable, FirstLine, Blank, RecordLines, Kept;
    var r := Rec(key, "\r\n" + value, |value| + 2, userSize);
    ClientLoggable(key, "\r\n" + value, userSize);
    HeaderFits(r);
    FirstLineOf(r);
    var body := r.value + "\n";
    assert body == "\r\n" + (value + "\n");
    BlankFirstPart(value + "\n", LINE - |Header(r)|);
    assert body[2..] == value + "\n";
    KeptIff(r);
  }

  // A line of at most 149 characters, its break included, is read in one piece; of a longer
  // one the first 149 characters are read as a line of their own.
  lemma LongLineCut(s: string, t: string)
    requires '\n' !in s && |s| == 149
    ensures Lines(s + t) == [s] + Lines(t)
  {
    FirstLineHead(s, t, 149);
    assert s + [] == s && (s + t)[149..] == t;
    LinesUnfold(s + t);
  }

  lemma ShortLine(s: string)
    requires '\n' !in s && |s| < 149
    ensures Lines(s + "\n") == [s + "\n"]
  {
    FirstLineHead(s, "\n", LINE);
    assert (s + "\n")[|s + "\n"|..] == [];
    LinesUnfold(s + "\n");
  }

  const K_RECORD: Rec := Rec("k", "\r\nhello", 7, 20)
  const X_RECORD: Rec := Rec("x", "\r\nSET k 7 3", 11, 20)

  lemma XLines()
    ensures Loggable(X_RECORD) && RecordLines(X_RECORD)[1..] == ["SET k 7 3\n"]
    ensures ScanLine("SET k 7 3\n") == ThreeFields("k", 7, 3)
  {
    hide Lines, ScanLine, Digits;
    ClientRecord("x", "SET k 7 3", 20);
    assert "\r\n" + "SET k 7 3" == X_RECORD.value;
    assert "SET k 7 3" + "\n" == "SET k 7 3\n";
    ShortLine("SET k 7 3");
    ScansFields("k", 7, 3, "\n");
    NoWordIffBlank("\n");
    OneDigit(7);
    OneDigit(3);
    assert "SET " + "k" + " " + "7" + " " + "3" + "\n" == "SET k 7 3\n";
  }

  lemma OneDigit(d: nat)
    requires d < 10
    ensures Digits(d) == ["0123456789"[d]]
  {
  }

  // A value that has the shape of a log line is replayed as one: k was set once, with the
  // sizes 20 and 7, and x was set to a text; after a restart k has the sizes 7 and 3.
  lemma ValueReplayedAsRecord(buffer: string)
    ensures Get(Replay(EMPTY, Restored(LogText([K_RECORD, X_RECORD]), buffer)), "k") ==
            Some(Rec("k", Cut(buffer, 3), 3, 7))
    ensures !Harmless(X_RECORD, "k")
  {
    hide Lines, ScanLine, Restored, RecordLines, LoadedLines, LogText, Loaded, Candidate;
    XLines();
    KLoads(buffer);
    LogStep([K_RECORD, X_RECORD], buffer);
    assert [K_RECORD, X_RECORD][..1] == [K_RECORD];
    var b := BufferAt([K_RECORD], buffer);
    XLoads(b);
    var k, x := K_RECORD.(value := Cut(buffer, 7)), X_RECORD.(value := Cut(b, 11));
    var planted := Rec("k", Cut(buffer, 3), 3, 7);
    assert Restored(LogText([K_RECORD, X_RECORD]), buffer) == [k, x, planted];
    OnlyK();
    ReplayGet([k, x, planted], {"k", "x"}, "k");
    assert [k, x, planted][..2] == [k, x];
    assert Latest([k, x, planted], "k") == Some(planted);
    assert !Harmless(X_RECORD, "k") by {
      assert RecordLines(X_RECORD)[1] == RecordLines(X_RECORD)[1..][0];
      assert LoadsFor(RecordLines(X_RECORD)[1], "k");
    }
  }

  lemma OnlyK()
    ensures OneCandidate({"k", "x"}, "k") && Candidate("k", "k")
  {
    assert !("k" <= "x") by { assert "k"[0] != "x"[0]; }
  }

  lemma KLoads(buffer: string)
    ensures Restored(LogText([K_RECORD]), buffer) == [K_RECORD.(value := Cut(buffer, 7))]
    ensures BufferAt([K_RECORD], buffer) == buffer
  {
    hide Lines, ScanLine, Restored, RecordLines, LoadedLines, LogText, BufferAt;
    ClientRecord("k", "hello", 20);
    assert "\r\n" + "hello" == K_RECORD.value;
    assert "hello" + "\n" == "hello\n";
    ShortLine("hello");
    assert ScanLine("hello\n").NoMatch? by { NotSet("hello\n"); }
    KeptIff(K_RECORD);
    assert Quiet(K_RECORD) by {
      assert forall i :: 1 <= i < |RecordLines(K_RECORD)| ==> RecordLines(K_RECORD)[i] == RecordLines(K_RECORD)[1..][i - 1];
    }
    QuietLogLoads([K_RECORD], buffer);
    LogOfOne(K_RECORD, buffer);
  }

  lemma NotSet(line: string)
    requires line != [] && line[0] != 'S'
    ensures ScanLine(line).NoMatch?
  {
    assert "SET"[0] == 'S';
  }

  lemma XLoads(buffer: string)
    ensures LoadedLines(RecordLines(X_RECORD), buffer) ==
            [X_RECORD.(value := Cut(buffer, 11)), Rec("k", Cut(buffer, 3), 3, 7)]
  {
    hide Lines, ScanLine, RecordLines, LoadedLines;
    XLines();
    ClientRecord("x", "SET k 7 3", 20);
    assert "\r\n" + "SET k 7 3" == X_RECORD.value;
    SplitRecord(X_RECORD, buffer);
    LoadedSingle("SET k 7 3\n", buffer);
  }

  lemma LoadedSingle(line: string, buffer: string)
    ensures LoadedLines([line], buffer) == LoadedLine(line, buffer)
  {
    LoadedOne(line, [], buffer);
    assert [line] + [] == [line];
    NothingLoaded(BufferLine(line, buffer));
  }
}
