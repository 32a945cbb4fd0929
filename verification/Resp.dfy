/**
 The incremental parser of client commands: a generator that is fed pieces of
 protocol data and hands every complete command to the command engine. Its
 suspension points are the phases of the state below.
 */
module Resp {
  import opened Bytes
  import opened Options
  import opened Slices

  type Fields = seq<Bytes>

  const CR: Byte := 13
  const LF: Byte := 10
  const STAR: Byte := 42
  const DOLLAR: Byte := 36

  const CRLF: Bytes := [CR, LF]

  /** Where the generator is suspended. */
  datatype Phase =
    | AwaitCommand
    | AwaitHeader(left: nat)             // left fields are still to come
    | AwaitBody(left: nat, length: int)  // the length of the next field is known
    | Dead                               // an exception ended the generator

  /** The local variables of the generator, the pause switch, and the commands processed so far. */
  datatype State = State(buf: Bytes, paused: bool, phase: Phase, fields: Fields, processed: seq<Fields>)

  const START := State([], false, AwaitCommand, [], [])

  // ---------- numbers ----------

  predicate IsDigit(b: Byte) {
    48 <= b <= 57
  }

  predicate IsSpace(b: Byte) {
    b == 32 || 9 <= b <= 13
  }

  function TrimLeft(s: Bytes): Bytes {
    if s != [] && IsSpace(s[0]) then TrimLeft(s[1..]) else s
  }

  function TrimRight(s: Bytes): Bytes {
    if s != [] && IsSpace(s[|s| - 1]) then TrimRight(s[..|s| - 1]) else s
  }

  /** Digits, with single underscores allowed between them. */
  function DigitsValue(s: Bytes): Option<int> {
    if s == [] || !IsDigit(s[|s| - 1]) then None
    else
      var last, init := s[|s| - 1] - 48, s[..|s| - 1];
      if init == [] then Some(last)
      else
        var high := DigitsValue(if init[|init| - 1] == 95 then init[..|init| - 1] else init);
        if high.None? then None else Some(10 * high.value + last)
  }

  /** int() of a byte string; None stands for the ValueError. */
  function ParseInt(s: Bytes): Option<int> {
    var t := TrimRight(TrimLeft(s));
    if t == [] then None
    else if t[0] == 43 then DigitsValue(t[1..])
    else if t[0] == 45 then
      var v := DigitsValue(t[1..]);
      if v.None? then None else Some(-v.value)
    else DigitsValue(t)
  }

  // ---------- one step of the generator ----------

  /** The position after the first line feed. */
  function LineEnd(s: Bytes): (p: nat)
    requires LF in s
    ensures 1 <= p <= |s| && s[p - 1] == LF && LF !in s[..p - 1]
  {
    if s[0] == LF then 1 else 1 + LineEnd(s[1..])
  }

  /** The number on a line that starts with the given mark and ends in CRLF; None if it is malformed. */
  function LineNumber(line: Bytes, mark: Byte): Option<int> {
    if |line| < 3 || line[|line| - 2] != CR || line[0] != mark then None
    else ParseInt(line[1..|line| - 2])
  }

  predicate CanStep(s: State) {
    match s.phase
    case AwaitCommand => !s.paused && LF in s.buf
    case AwaitHeader(_) => LF in s.buf
    case AwaitBody(_, length) => |s.buf| >= length + 2
    case Dead => false
  }

  /** Hands a command to the engine, which may pause the parser while the command blocks. */
  function Process(s: State, blocks: Fields -> bool): State {
    s.(phase := AwaitCommand, fields := [], processed := s.processed + [s.fields], paused := s.paused || blocks(s.fields))
  }

  function Next(s: State, blocks: Fields -> bool): State
    requires CanStep(s)
  {
    match s.phase
    case AwaitCommand =>
      var p := LineEnd(s.buf);
      var n := LineNumber(s.buf[..p], STAR);
      if n.None? then Die(s)
      else if n.value <= 0 then Process(s.(buf := s.buf[p..], fields := []), blocks)
      else s.(buf := s.buf[p..], fields := [], phase := AwaitHeader(n.value))
    case AwaitHeader(left) =>
      var p := LineEnd(s.buf);
      var n := LineNumber(s.buf[..p], DOLLAR);
      if n.None? then Die(s)
      else s.(buf := s.buf[p..], phase := AwaitBody(left, n.value))
    case AwaitBody(left, length) =>
      var t := s.(buf := Drop(s.buf, length + 2), fields := s.fields + [Take(s.buf, length)]);
      if left <= 1 then Process(t, blocks) else t.(phase := AwaitHeader(left - 1))
  }

  function Die(s: State): State {
    s.(buf := [], phase := Dead)
  }

  function Work(s: State): nat {
    2 * |s.buf| + if s.phase.AwaitBody? then 1 else 0
  }

  /** Runs the generator to its next suspension. */
  function Settle(s: State, blocks: Fields -> bool): (t: State)
    ensures !CanStep(t)
    decreases Work(s)
  {
    if CanStep(s) then Settle(Next(s, blocks), blocks) else s
  }

  // ---------- the socket's operations on the parser ----------

  /** send() to a generator that has ended has no effect on it. */
  function Append(s: State, data: Bytes): State {
    if s.phase.Dead? then s else s.(buf := s.buf + data)
  }

  function Send(s: State, data: Bytes, blocks: Fields -> bool): State {
    Settle(Append(s, data), blocks)
  }

  datatype Event = Data(chunk: Bytes) | Pause | Resume

  function Apply(s: State, e: Event, blocks: Fields -> bool): State {
    match e
    case Data(chunk) => Send(s, chunk, blocks)
    case Pause => s.(paused := true)
    case Resume => Send(s.(paused := false), [], blocks)
  }

  function RunEvents(es: seq<Event>, blocks: Fields -> bool): State {
    if es == [] then START
    else Apply(RunEvents(es[..|es| - 1], blocks), es[|es| - 1], blocks)
  }

  function Received(es: seq<Event>): Bytes {
    if es == [] then []
    else
      var e := es[|es| - 1];
      Received(es[..|es| - 1]) + if e.Data? then e.chunk else []
  }

  /** The parser object: the generator's variables are fields, each send runs it to its next suspension. */
  class Parser {
    var buf: Bytes
    var paused: bool
    var phase: Phase
    var fields: Fields
    var processed: seq<Fields>
    const blocks: Fields -> bool

    constructor (blocks: Fields -> bool)
      ensures Abs() == START && this.blocks == blocks
    {
      buf, paused, phase, fields, processed := [], false, AwaitCommand, [], [];
      this.blocks := blocks;
    }

    function Abs(): State
      reads this
    {
      State(buf, paused, phase, fields, processed)
    }

    method PauseParser()
      modifies this
      ensures Abs() == Apply(old(Abs()), Pause, blocks)
    {
      paused := true;
    }

    method ResumeParser()
      modifies this
      ensures Abs() == Apply(old(Abs()), Resume, blocks)
    {
      paused := false;
      SendData([]);
    }

    method ProcessCommand()
      modifies this
      ensures Abs() == Process(old(Abs()), blocks)
    {
      processed := processed + [fields];
      paused := paused || blocks(fields);
      phase, fields := AwaitCommand, [];
    }

    method ReadBody()
      requires CanStep(Abs()) && phase.AwaitBody?
      modifies this
      ensures Abs() == Next(old(Abs()), blocks)
    {
      fields := fields + [Take(buf, phase.length)];
      buf := Drop(buf, phase.length + 2);
      if phase.left <= 1 {
        ProcessCommand();
      } else {
        phase := AwaitHeader(phase.left - 1);
      }
    }

    method ReadLine()
      requires CanStep(Abs()) && !phase.AwaitBody?
      modifies this
      ensures Abs() == Next(old(Abs()), blocks)
    {
      var p := LineEnd(buf);
      var line := buf[..p];
      var number := LineNumber(line, if phase == AwaitCommand then STAR else DOLLAR);
      if number == None {
        buf, phase := [], Dead;
        return;
      }
      buf := buf[p..];
      if phase.AwaitHeader? {
        phase := AwaitBody(phase.left, number.value);
      } else {
        fields := [];
        if number.value <= 0 {
          ProcessCommand();
        } else {
          phase := AwaitHeader(number.value);
        }
      }
    }

    method SendData(data: Bytes)
      modifies this
      ensures Abs() == Send(old(Abs()), data, blocks)
    {
      if phase == Dead {
        return;
      }
      buf := buf + data;
      ghost var goal := Settle(Abs(), blocks);
      while CanStep(Abs())
        invariant Settle(Abs(), blocks) == goal
        decreases Work(Abs())
      {
        if phase.AwaitBody? {
          ReadBody();
        } else {
          ReadLine();
        }
      }
    }
  }
  // ---------- the encoding of commands: RESP arrays of bulk strings ----------

  function Decimal(n: nat): (s: Bytes)
    ensures s != [] && forall i | 0 <= i < |s| :: IsDigit(s[i])
  {
    if n < 10 then [48 + n] else Decimal(n / 10) + [48 + n % 10]
  }

  function Header(mark: Byte, n: nat): Bytes {
    [mark] + Decimal(n) + CRLF
  }

  function EncodeFields(fields: Fields): Bytes {
    if fields == [] then []
    else Header(DOLLAR, |fields[0]|) + (fields[0] + (CRLF + EncodeFields(fields[1..])))
  }

  function Encode(commands: seq<Fields>): Bytes {
    if commands == [] then []
    else Header(STAR, |commands[0]|) + (EncodeFields(commands[0]) + Encode(commands[1..]))
  }

  lemma {:induction false} DigitsOfDecimal(n: nat)
    ensures DigitsValue(Decimal(n)) == Some(n)
  {
    if n >= 10 {
      var s, init := Decimal(n), Decimal(n / 10);
      DigitsOfDecimal(n / 10);
      assert s[..|s| - 1] == init && s[|s| - 1] == 48 + n % 10;
    }
  }

  /** The decimal spelling of a length is read back as the length. */
  lemma ParseIntOfDecimal(n: nat)
    ensures ParseInt(Decimal(n)) == Some(n)
  {
    var s := Decimal(n);
    DigitsOfDecimal(n);
    assert IsDigit(s[0]) && IsDigit(s[|s| - 1]);
    assert TrimLeft(s) == s && TrimRight(s) == s;
  }

  // ---------- which spellings are numbers ----------

  /** White space is the tab, the line ends and the blank. */
  lemma SpacesAre(b: Byte)
    ensures IsSpace(b) <==> b in {9, 10, 11, 12, 13, 32}
    ensures IsDigit(b) <==> b in {48, 49, 50, 51, 52, 53, 54, 55, 56, 57}
  {
  }

  predicate SpacesIn(s: Bytes, a: nat, b: nat)
    requires b <= |s|
  {
    forall i | a <= i < b :: IsSpace(s[i])
  }

  /** Digits, with single underscores between digits. */
  predicate IsDigits(s: Bytes) {
    && s != []
    && forall i | 0 <= i < |s| ::
         IsDigit(s[i]) || (s[i] == 95 && 0 < i < |s| - 1 && IsDigit(s[i - 1]) && IsDigit(s[i + 1]))
  }

  /** What digits are worth in base ten, underscores skipped. */
  function Worth(s: Bytes): int {
    if s == [] then 0
    else if s[|s| - 1] == 95 then Worth(s[..|s| - 1])
    else 10 * Worth(s[..|s| - 1]) + (s[|s| - 1] as int - 48)
  }

  /** The digits in front of the last one. */
  function Leading(s: Bytes): Bytes
    requires |s| > 1
  {
    if s[|s| - 2] == 95 then s[..|s| - 2] else s[..|s| - 1]
  }

  lemma {:induction false} DigitsValueIff(s: Bytes)
    ensures DigitsValue(s) == if IsDigits(s) then Some(Worth(s)) else None
    decreases |s|
  {
    if |s| > 1 && IsDigit(s[|s| - 1]) {
      DigitsValueIff(Leading(s));
      LeadingDigits(s);
      assert s[..|s| - 1][..|s| - 2] == s[..|s| - 2];
    }
  }

  lemma LeadingDigits(s: Bytes)
    requires |s| > 1 && IsDigit(s[|s| - 1])
    ensures IsDigits(s) <==> IsDigits(Leading(s))
    ensures Worth(s) == 10 * Worth(Leading(s)) + (s[|s| - 1] as int - 48)
  {
    var t := Leading(s);
    assert forall i | 0 <= i < |t| :: t[i] == s[i];
    if s[|s| - 2] == 95 {
      assert s[..|s| - 1][..|s| - 2] == t;
      UnderscoreBetween(s);
    } else {
      DigitBehind(s);
    }
  }

  lemma UnderscoreBetween(s: Bytes)
    requires |s| > 1 && IsDigit(s[|s| - 1]) && s[|s| - 2] == 95
    ensures IsDigits(s) <==> IsDigits(s[..|s| - 2])
  {
    if IsDigits(s) {
      assert IsDigit(s[|s| - 3]);
    }
  }

  lemma DigitBehind(s: Bytes)
    requires |s| > 1 && IsDigit(s[|s| - 1]) && s[|s| - 2] != 95
    ensures IsDigits(s) <==> IsDigits(s[..|s| - 1])
  {
    var t := s[..|s| - 1];
    forall i | 0 <= i < |t| ensures t[i] == s[i] {
    }
  }

  /** Digits, with or without a sign. */
  predicate Spells(t: Bytes, v: int) {
    || (IsDigits(t) && v == Worth(t))
    || (t != [] && t[0] == 43 && IsDigits(t[1..]) && v == Worth(t[1..]))
    || (t != [] && t[0] == 45 && IsDigits(t[1..]) && v == -Worth(t[1..]))
  }

  lemma {:induction false} TrimLeftIs(s: Bytes)
    ensures var t := TrimLeft(s);
      && |t| <= |s| && t == s[|s| - |t|..] && SpacesIn(s, 0, |s| - |t|) && (t != [] ==> !IsSpace(t[0]))
  {
    if s != [] && IsSpace(s[0]) {
      TrimLeftIs(s[1..]);
    }
  }

  lemma {:induction false} TrimRightIs(s: Bytes)
    ensures var t := TrimRight(s);
      && |t| <= |s| && t == s[..|t|] && SpacesIn(s, |t|, |s|) && (t != [] ==> !IsSpace(t[|t| - 1]))
  {
    if s != [] && IsSpace(s[|s| - 1]) {
      TrimRightIs(s[..|s| - 1]);
    }
  }

  /** The text from a to b spells the number, and around it is only white space. */
  predicate SpellsWithin(s: Bytes, a: int, b: int, v: int) {
    0 <= a <= b <= |s| && SpacesIn(s, 0, a) && SpacesIn(s, b, |s|) && Spells(s[a..b], v)
  }

  lemma SpellingHasNoSpaceAround(t: Bytes, v: int)
    requires Spells(t, v)
    ensures t != [] && !IsSpace(t[0]) && !IsSpace(t[|t| - 1])
  {
    if IsDigits(t) {
      assert !IsSpace(t[0]) && !IsSpace(t[|t| - 1]);
    } else {
      var u := t[1..];
      assert IsDigits(u) && u[|u| - 1] == t[|t| - 1] && !IsSpace(u[|u| - 1]);
    }
  }

  lemma TrimmedIs(s: Bytes) returns (a: nat, b: nat)
    ensures a <= b <= |s| && TrimRight(TrimLeft(s)) == s[a..b] && SpacesIn(s, 0, a) && SpacesIn(s, b, |s|)
    ensures a < b ==> !IsSpace(s[a]) && !IsSpace(s[b - 1])
  {
    TrimLeftIs(s);
    var t := TrimLeft(s);
    TrimRightIs(t);
    a := |s| - |t|;
    b := a + |TrimRight(t)|;
    SliceOfSuffix(s, a, b);
    forall i | b <= i < |s| ensures IsSpace(s[i]) {
      assert s[i] == t[i - a];
    }
  }

  lemma SliceOfSuffix(s: Bytes, a: nat, b: nat)
    requires a <= b <= |s|
    ensures s[a..][..b - a] == s[a..b]
  {
  }

  lemma SpelledIsTrimmed(s: Bytes, a: nat, b: nat, c: nat, d: nat)
    requires a < b <= |s| && SpacesIn(s, 0, a) && SpacesIn(s, b, |s|) && !IsSpace(s[a]) && !IsSpace(s[b - 1])
    requires c <= d <= |s| && SpacesIn(s, 0, c) && SpacesIn(s, d, |s|) && (c < d ==> !IsSpace(s[c]) && !IsSpace(s[d - 1]))
    ensures c == a && d == b
  {
  }

  /** A text is a number exactly when it is digits, with single underscores between them, a sign before and white space around. */
  lemma ParseIntIff(s: Bytes, v: int)
    ensures ParseInt(s) == Some(v) <==> exists a, b :: SpellsWithin(s, a, b, v)
  {
    var a, b := TrimmedIs(s);
    var t := s[a..b];
    ParseTrimmedIff(s, t, v);
    if ParseInt(s) == Some(v) {
      assert SpellsWithin(s, a, b, v);
    }
    if c, d :| SpellsWithin(s, c, d, v) {
      SpellingHasNoSpaceAround(s[c..d], v);
      SpelledIsTrimmed(s, c, d, a, b);
    }
  }

  lemma ParseTrimmedIff(s: Bytes, t: Bytes, v: int)
    requires TrimRight(TrimLeft(s)) == t
    ensures ParseInt(s) == Some(v) <==> Spells(t, v)
  {
    DigitsValueIff(t);
    if t != [] {
      DigitsValueIff(t[1..]);
      assert IsDigits(t) ==> IsDigit(t[0]);
    }
  }

  /** A header line is the mark, a number, and CR LF. */
  lemma LineNumberIff(line: Bytes, mark: Byte, v: int)
    requires line != [] && line[|line| - 1] == LF
    ensures LineNumber(line, mark) == Some(v) <==>
            exists text :: line == [mark] + text + CRLF && ParseInt(text) == Some(v)
  {
    if LineNumber(line, mark) == Some(v) {
      assert line == [mark] + line[1..|line| - 2] + CRLF;
    }
    if text :| line == [mark] + text + CRLF && ParseInt(text) == Some(v) {
      assert line[1..|line| - 2] == text && text != [];
    }
  }

  lemma LineEndOf(line: Bytes, rest: Bytes)
    requires line != [] && line[|line| - 1] == LF && LF !in line[..|line| - 1]
    ensures LF in line + rest && LineEnd(line + rest) == |line|
  {
    var s := line + rest;
    assert s[|line| - 1] == LF && s[..|line| - 1] == line[..|line| - 1];
    FirstLineFeed(s, |line|);
  }

  /** A line is read as the number written on it, whatever follows it. */
  lemma LineIsRead(mark: Byte, text: Bytes, rest: Bytes)
    requires mark != LF && LF !in text
    ensures
      var s := [mark] + text + CRLF + rest;
      && LF in s && LineEnd(s) == |text| + 3
      && LineNumber(s[..LineEnd(s)], mark) == ParseInt(text)
      && s[LineEnd(s)..] == rest
  {
    var line := [mark] + text + CRLF;
    assert line[1..|line| - 2] == text;
    forall i | 0 <= i < |line| - 1 ensures line[i] != LF {
      assert 1 <= i <= |text| ==> line[i] == text[i - 1];
    }
    LineEndOf(line, rest);
    assert (line + rest)[..|line|] == line;
  }

  /** A header is read back as the number it was written for. */
  lemma HeaderIsRead(mark: Byte, n: nat, rest: Bytes)
    requires mark != LF
    ensures
      var s := Header(mark, n) + rest;
      && LF in s && LineEnd(s) == |Header(mark, n)|
      && LineNumber(s[..LineEnd(s)], mark) == Some(n)
      && s[LineEnd(s)..] == rest
  {
    assert LF !in Decimal(n);
    LineIsRead(mark, Decimal(n), rest);
    ParseIntOfDecimal(n);
  }

  // ---------- the parser on encoded commands ----------

  /** What the parser still has to see, given that it works on command number k. */
  ghost function Expected(commands: seq<Fields>, k: nat, phase: Phase): Bytes
    requires k <= |commands|
    requires phase.AwaitHeader? ==> k < |commands| && 1 <= phase.left <= |commands[k]|
    requires phase.AwaitBody? ==> k < |commands| && 1 <= phase.left <= |commands[k]|
  {
    match phase
    case AwaitCommand => Encode(commands[k..])
    case AwaitHeader(left) => EncodeFields(commands[k][|commands[k]| - left..]) + Encode(commands[k + 1..])
    case AwaitBody(left, _) =>
      var i := |commands[k]| - left;
      commands[k][i] + (CRLF + (EncodeFields(commands[k][i + 1..]) + Encode(commands[k + 1..])))
    case Dead => []
  }

  /** The parser is on course: it has processed the first k commands and what is buffered or not yet sent is the rest. */
  ghost predicate OnCourse(s: State, commands: seq<Fields>, unsent: Bytes) {
    var k := |s.processed|;
    && k <= |commands| && s.processed == commands[..k]
    && (match s.phase
        case AwaitCommand => true
        case AwaitHeader(left) =>
          k < |commands| && 1 <= left <= |commands[k]| && s.fields == commands[k][..|commands[k]| - left]
        case AwaitBody(left, length) =>
          && k < |commands| && 1 <= left <= |commands[k]| && s.fields == commands[k][..|commands[k]| - left]
          && length == |commands[k][|commands[k]| - left]|
        case Dead => false)
    && s.buf + unsent == Expected(commands, k, s.phase)
  }

  /** If the text begins with a header and the buffer holds a line feed, the header is in the buffer whole. */
  lemma HeaderIsBuffered(buf: Bytes, unsent: Bytes, mark: Byte, n: nat, rest: Bytes)
    requires mark != LF && LF in buf && buf + unsent == Header(mark, n) + rest
    ensures
      var p := LineEnd(buf);
      && LineNumber(buf[..p], mark) == Some(n) && buf[p..] + unsent == rest
  {
    HeaderIsRead(mark, n, rest);
    MoreDataAfterLine(buf, unsent);
  }

  lemma EncodeStep(commands: seq<Fields>, k: nat)
    requires k < |commands|
    ensures Encode(commands[k..]) == Header(STAR, |commands[k]|) + (EncodeFields(commands[k]) + Encode(commands[k + 1..]))
  {
  }

  lemma EncodeFieldsStep(fields: Fields, i: nat, tail: Bytes)
    requires i < |fields|
    ensures EncodeFields(fields[i..]) + tail ==
            Header(DOLLAR, |fields[i]|) + (fields[i] + (CRLF + (EncodeFields(fields[i + 1..]) + tail)))
  {
  }

  lemma BodyIsBuffered(buf: Bytes, unsent: Bytes, field: Bytes, rest: Bytes)
    requires buf + unsent == field + (CRLF + rest) && |buf| >= |field| + 2
    ensures Take(buf, |field|) == field && Drop(buf, |field| + 2) + unsent == rest
  {
    var all := buf + unsent;
    assert all[..|field|] == field && all[..|field|] == buf[..|field|];
    assert all[|field| + 2..] == rest && all[|field| + 2..] == buf[|field| + 2..] + unsent;
  }

  lemma CommandsRemain(s: State, commands: seq<Fields>, unsent: Bytes)
    requires OnCourse(s, commands, unsent) && CanStep(s) && s.phase == AwaitCommand
    ensures |s.processed| < |commands|
  {
    assert |s.buf + unsent| == |s.buf| + |unsent|;
  }

  lemma StepCommand(s: State, commands: seq<Fields>, unsent: Bytes, blocks: Fields -> bool)
    requires OnCourse(s, commands, unsent) && CanStep(s) && s.phase == AwaitCommand
    ensures OnCourse(Next(s, blocks), commands, unsent)
  {
    var k := |s.processed|;
    CommandsRemain(s, commands, unsent);
    EncodeStep(commands, k);
    HeaderIsBuffered(s.buf, unsent, STAR, |commands[k]|, EncodeFields(commands[k]) + Encode(commands[k + 1..]));
    if commands[k] == [] {
      assert commands[..k + 1] == commands[..k] + [[]];
    } else {
      assert commands[k][0..] == commands[k];
      AtHeader(Next(s, blocks), commands, unsent, k, 0);
    }
  }

  lemma StepHeader(s: State, commands: seq<Fields>, unsent: Bytes, blocks: Fields -> bool)
    requires OnCourse(s, commands, unsent) && CanStep(s) && s.phase.AwaitHeader?
    ensures OnCourse(Next(s, blocks), commands, unsent)
  {
    var k := |s.processed|;
    var i := |commands[k]| - s.phase.left;
    var tail := Encode(commands[k + 1..]);
    EncodeFieldsStep(commands[k], i, tail);
    HeaderIsBuffered(s.buf, unsent, DOLLAR, |commands[k][i]|,
                     commands[k][i] + (CRLF + (EncodeFields(commands[k][i + 1..]) + tail)));
    AtBody(Next(s, blocks), commands, unsent, k, i);
  }

  lemma AtBody(t: State, commands: seq<Fields>, unsent: Bytes, k: nat, i: nat)
    requires k < |commands| && i < |commands[k]|
    requires t.phase == AwaitBody(|commands[k]| - i, |commands[k][i]|)
    requires t.processed == commands[..k] && t.fields == commands[k][..i]
    requires t.buf + unsent ==
             commands[k][i] + (CRLF + (EncodeFields(commands[k][i + 1..]) + Encode(commands[k + 1..])))
    ensures OnCourse(t, commands, unsent)
  {
  }

  lemma StepBody(s: State, commands: seq<Fields>, unsent: Bytes, blocks: Fields -> bool)
    requires OnCourse(s, commands, unsent) && CanStep(s) && s.phase.AwaitBody?
    ensures OnCourse(Next(s, blocks), commands, unsent)
  {
    if s.phase.left == 1 {
      StepLastBody(s, commands, unsent, blocks);
    } else {
      StepInnerBody(s, commands, unsent, blocks);
    }
  }

  lemma StepInnerBody(s: State, commands: seq<Fields>, unsent: Bytes, blocks: Fields -> bool)
    requires OnCourse(s, commands, unsent) && CanStep(s) && s.phase.AwaitBody? && s.phase.left > 1
    ensures OnCourse(Next(s, blocks), commands, unsent)
  {
    var k := |s.processed|;
    var i := |commands[k]| - s.phase.left;
    BodyIsBuffered(s.buf, unsent, commands[k][i], EncodeFields(commands[k][i + 1..]) + Encode(commands[k + 1..]));
    assert commands[k][..i + 1] == commands[k][..i] + [commands[k][i]];
    AtHeader(Next(s, blocks), commands, unsent, k, i + 1);
  }

  lemma AtHeader(t: State, commands: seq<Fields>, unsent: Bytes, k: nat, i: nat)
    requires k < |commands| && i < |commands[k]|
    requires t.phase == AwaitHeader(|commands[k]| - i) && t.processed == commands[..k] && t.fields == commands[k][..i]
    requires t.buf + unsent == EncodeFields(commands[k][i..]) + Encode(commands[k + 1..])
    ensures OnCourse(t, commands, unsent)
  {
  }

  lemma StepLastBody(s: State, commands: seq<Fields>, unsent: Bytes, blocks: Fields -> bool)
    requires OnCourse(s, commands, unsent) && CanStep(s) && s.phase.AwaitBody? && s.phase.left == 1
    ensures OnCourse(Next(s, blocks), commands, unsent)
  {
    var k := |s.processed|;
    var i := |commands[k]| - 1;
    BodyIsBuffered(s.buf, unsent, commands[k][i], EncodeFields(commands[k][i + 1..]) + Encode(commands[k + 1..]));
    assert commands[k][..i + 1] == commands[k][..i] + [commands[k][i]];
    LastField(commands, k, i);
  }

  lemma LastField(commands: seq<Fields>, k: nat, i: nat)
    requires k < |commands| && i + 1 == |commands[k]|
    ensures commands[k][..i + 1] == commands[k] && commands[k][i + 1..] == []
    ensures EncodeFields(commands[k][i + 1..]) + Encode(commands[k + 1..]) == Encode(commands[k + 1..])
    ensures commands[..k + 1] == commands[..k] + [commands[k]]
  {
  }

  lemma {:induction false} SettleStaysOnCourse(s: State, commands: seq<Fields>, unsent: Bytes, blocks: Fields -> bool)
    requires OnCourse(s, commands, unsent)
    ensures OnCourse(Settle(s, blocks), commands, unsent)
    decreases Work(s)
  {
    if CanStep(s) {
      if s.phase.AwaitCommand? {
        StepCommand(s, commands, unsent, blocks);
      } else if s.phase.AwaitHeader? {
        StepHeader(s, commands, unsent, blocks);
      } else {
        StepBody(s, commands, unsent, blocks);
      }
      SettleStaysOnCourse(Next(s, blocks), commands, unsent, blocks);
    }
  }

  lemma ApplyStaysOnCourse(s: State, e: Event, commands: seq<Fields>, unsent: Bytes, blocks: Fields -> bool)
    requires OnCourse(s, commands, (if e.Data? then e.chunk else []) + unsent)
    ensures OnCourse(Apply(s, e, blocks), commands, unsent)
  {
    if e.Data? {
      assert s.buf + (e.chunk + unsent) == s.buf + e.chunk + unsent;
      SettleStaysOnCourse(Append(s, e.chunk), commands, unsent, blocks);
    } else {
      assert [] + unsent == unsent && s.buf + [] == s.buf;
      if e.Resume? {
        SettleStaysOnCourse(Append(s.(paused := false), []), commands, unsent, blocks);
      }
    }
  }

  lemma {:induction false} RunStaysOnCourse(es: seq<Event>, commands: seq<Fields>, unsent: Bytes, blocks: Fields -> bool)
    requires Received(es) + unsent == Encode(commands)
    ensures OnCourse(RunEvents(es, blocks), commands, unsent)
  {
    if es == [] {
      assert commands[0..] == commands;
      assert START.buf + unsent == Received(es) + unsent;
    } else {
      var init, e := es[..|es| - 1], es[|es| - 1];
      var chunk := if e.Data? then e.chunk else [];
      assert Received(init) + (chunk + unsent) == Received(es) + unsent;
      RunStaysOnCourse(init, commands, chunk + unsent, blocks);
      ApplyStaysOnCourse(RunEvents(init, blocks), e, commands, unsent, blocks);
    }
  }

  /** A parser that is not paused and has everything it was promised is waiting for the next command. */
  lemma SettledMeansDone(s: State, commands: seq<Fields>)
    requires OnCourse(s, commands, []) && !CanStep(s) && !s.paused
    ensures s.processed == commands
  {
    assert s.buf + [] == s.buf;
    ExpectedHasLine(commands, |s.processed|, s.phase);
    assert commands[..|commands|] == commands;
  }

  /** Wherever a line is expected, what follows contains a line feed. */
  lemma ExpectedHasLine(commands: seq<Fields>, k: nat, phase: Phase)
    requires k <= |commands|
    requires !phase.AwaitCommand? ==> k < |commands|
    requires phase.AwaitHeader? || phase.AwaitBody? ==> 1 <= phase.left <= |commands[k]|
    ensures (phase.AwaitCommand? && k < |commands|) || phase.AwaitHeader? ==> LF in Expected(commands, k, phase)
  {
  }

  lemma {:induction false} RunIsSettled(es: seq<Event>, blocks: Fields -> bool)
    ensures !CanStep(RunEvents(es, blocks))
  {
    if es != [] {
      RunIsSettled(es[..|es| - 1], blocks);
    }
  }

  /**
   However the encoding of the commands is cut into chunks, and wherever the
   parser is paused and resumed, the commands processed are the first ones, in
   order, none lost and none repeated; and if the parser is not left paused
   they are all of them.
   */
  lemma ParsingInvertsEncoding(es: seq<Event>, commands: seq<Fields>, blocks: Fields -> bool)
    requires Received(es) == Encode(commands)
    ensures RunEvents(es, blocks).processed <= commands
    ensures !RunEvents(es, blocks).paused ==> RunEvents(es, blocks).processed == commands
  {
    assert Received(es) + [] == Encode(commands);
    RunStaysOnCourse(es, commands, [], blocks);
    RunIsSettled(es, blocks);
    var s := RunEvents(es, blocks);
    assert s.processed == commands[..|s.processed|];
    if !s.paused {
      SettledMeansDone(s, commands);
    }
  }

  // ---------- the pause switch ----------

  /** The parser is between two commands, or has ended. */
  predicate IsBetween(s: State) {
    s.phase.AwaitCommand? || s.phase.Dead?
  }

  /** No command was processed, or one, after which the parser is between two and paused if it was or the command blocks. */
  ghost predicate Processes(s: State, t: State, blocks: Fields -> bool) {
    var n := |s.processed|;
    if |t.processed| == n then t.processed == s.processed && t.paused == s.paused
    else
      && |t.processed| == n + 1 && t.processed[..n] == s.processed && t.phase.AwaitCommand?
      && t.paused == (s.paused || blocks(t.processed[n]))
  }

  lemma StepProcesses(s: State, blocks: Fields -> bool)
    requires CanStep(s)
    ensures (s.paused ==> !IsBetween(s)) && Processes(s, Next(s, blocks), blocks)
  {
  }

  lemma {:induction false} SettleExtends(s: State, blocks: Fields -> bool)
    ensures s.processed <= Settle(s, blocks).processed
    decreases Work(s)
  {
    if CanStep(s) {
      StepProcesses(s, blocks);
      SettleExtends(Next(s, blocks), blocks);
    }
  }

  /** Until its next suspension the parser processes no command after one that blocks. */
  lemma {:induction false} SettleStopsAtBlocking(s: State, j: nat, blocks: Fields -> bool)
    requires var t := Settle(s, blocks); |s.processed| <= j < |t.processed| && blocks(t.processed[j])
    ensures var t := Settle(s, blocks); j == |t.processed| - 1 && t.paused && t.phase.AwaitCommand?
    decreases Work(s)
  {
    var u := Next(s, blocks);
    StepProcesses(s, blocks);
    SettleExtends(u, blocks);
    if j < |u.processed| {
      assert u.processed[j] == Settle(u, blocks).processed[j];
    } else {
      SettleStopsAtBlocking(u, j, blocks);
    }
  }

  /** The parser is paused because it was before, or because the last command processed blocks. */
  ghost predicate PausedByLast(s: State, t: State, blocks: Fields -> bool) {
    t.paused <==> s.paused || (|s.processed| < |t.processed| && blocks(t.processed[|t.processed| - 1]))
  }

  lemma PausedByLastJoins(s: State, u: State, t: State, blocks: Fields -> bool)
    requires Processes(s, u, blocks) && u.processed <= t.processed && PausedByLast(u, t, blocks)
    requires |s.processed| < |u.processed| < |t.processed| ==> !u.paused
    ensures PausedByLast(s, t, blocks)
  {
  }

  lemma PausedParserStops(u: State, blocks: Fields -> bool)
    requires u.phase.AwaitCommand? && u.paused
    ensures Settle(u, blocks) == u
  {
  }

  /** Nothing but a command that blocks pauses it. */
  lemma {:induction false} SettlePausesIff(s: State, blocks: Fields -> bool)
    ensures PausedByLast(s, Settle(s, blocks), blocks)
    decreases Work(s)
  {
    if CanStep(s) {
      var u := Next(s, blocks);
      StepProcesses(s, blocks);
      SettleExtends(u, blocks);
      SettlePausesIff(u, blocks);
      if u.phase.AwaitCommand? && u.paused {
        PausedParserStops(u, blocks);
      }
      PausedByLastJoins(s, u, Settle(u, blocks), blocks);
    }
  }

  /** A parser that was paused before has at most completed the command in the making, and is between two then. */
  lemma {:induction false} SettleOfPaused(s: State, blocks: Fields -> bool)
    requires s.paused
    ensures
      var t := Settle(s, blocks);
      && |t.processed| <= (if IsBetween(s) then |s.processed| else |s.processed| + 1)
      && (IsBetween(s) || |s.processed| < |t.processed| ==> IsBetween(t))
    decreases Work(s)
  {
    if CanStep(s) {
      StepProcesses(s, blocks);
      SettleOfPaused(Next(s, blocks), blocks);
    }
  }

  lemma SettleIsPausedBetween(s: State, blocks: Fields -> bool)
    requires Settle(s, blocks).paused && |s.processed| < |Settle(s, blocks).processed|
    ensures IsBetween(Settle(s, blocks))
  {
    SettlePausesIff(s, blocks);
    if s.paused {
      SettleOfPaused(s, blocks);
    } else {
      SettleStopsAtBlocking(s, |Settle(s, blocks).processed| - 1, blocks);
    }
  }

  /** What an event does to the commands processed and to the switch. */
  ghost predicate StopsAtBlocking(s: State, t: State, e: Event, blocks: Fields -> bool) {
    var n, m := |s.processed|, |t.processed|;
    && s.processed <= t.processed
    && (t.paused <==> (!e.Resume? && s.paused) || e.Pause? || (n < m && blocks(t.processed[m - 1])))
    && (!e.Resume? && s.paused ==> m <= (if IsBetween(s) then n else n + 1) && (IsBetween(s) ==> IsBetween(t)))
    && (n < m && t.paused ==> IsBetween(t))
  }

  lemma ApplyStopsAtBlocking(s: State, e: Event, blocks: Fields -> bool)
    ensures StopsAtBlocking(s, Apply(s, e, blocks), e, blocks)
  {
    match e
    case Data(chunk) => SettleStops(Append(s, chunk), blocks);
    case Pause =>
    case Resume => SettleStops(Append(s.(paused := false), []), blocks);
  }

  lemma SettleStops(s: State, blocks: Fields -> bool)
    ensures StopsAtBlocking(s, Settle(s, blocks), Data([]), blocks)
  {
    SettleExtends(s, blocks);
    SettlePausesIff(s, blocks);
    if s.paused {
      SettleOfPaused(s, blocks);
    }
    if Settle(s, blocks).paused && |s.processed| < |Settle(s, blocks).processed| {
      SettleIsPausedBetween(s, blocks);
    }
  }

  /** Of the commands that were let through, only the last one can be one that blocks. */
  ghost predicate OnlyLastBlocks(s: State, t: State, blocks: Fields -> bool) {
    forall j | |s.processed| <= j < |t.processed| - 1 :: !blocks(t.processed[j])
  }

  lemma ApplyOnlyLastBlocks(s: State, e: Event, blocks: Fields -> bool)
    ensures OnlyLastBlocks(s, Apply(s, e, blocks), blocks)
  {
    match e
    case Data(chunk) => SettleOnlyLastBlocks(Append(s, chunk), blocks);
    case Pause =>
    case Resume => SettleOnlyLastBlocks(Append(s.(paused := false), []), blocks);
  }

  lemma SettleOnlyLastBlocks(s: State, blocks: Fields -> bool)
    ensures OnlyLastBlocks(s, Settle(s, blocks), blocks)
  {
    var t := Settle(s, blocks);
    forall j | |s.processed| <= j < |t.processed| - 1 ensures !blocks(t.processed[j]) {
      if blocks(t.processed[j]) {
        SettleStopsAtBlocking(s, j, blocks);
      }
    }
  }

  /** The states between the events of a run. */
  ghost predicate IsTrace(ss: seq<State>, es: seq<Event>, blocks: Fields -> bool) {
    && |ss| == |es| + 1 && ss[0].processed == [] && !ss[0].paused
    && forall i | 0 <= i < |es| :: StopsAtBlocking(ss[i], ss[i + 1], es[i], blocks)
  }

  lemma RunStops(es: seq<Event>, i: nat, blocks: Fields -> bool)
    requires i < |es|
    ensures StopsAtBlocking(RunEvents(es[..i], blocks), RunEvents(es[..i + 1], blocks), es[i], blocks)
  {
    assert es[..i + 1][..i] == es[..i];
    ApplyStopsAtBlocking(RunEvents(es[..i], blocks), es[i], blocks);
  }

  lemma TraceOf(es: seq<Event>, blocks: Fields -> bool) returns (ss: seq<State>)
    ensures IsTrace(ss, es, blocks)
    ensures forall i | 0 <= i <= |es| :: ss[i] == RunEvents(es[..i], blocks)
    ensures ss[|es|] == RunEvents(es, blocks)
  {
    ss := seq(|es| + 1, i requires 0 <= i <= |es| => RunEvents(es[..i], blocks));
    assert es[..|es|] == es;
    forall i | 0 <= i < |es| ensures StopsAtBlocking(ss[i], ss[i + 1], es[i], blocks) {
      RunStops(es, i, blocks);
    }
  }

  /** No resume among the events from n to k. */
  ghost predicate NoResume(es: seq<Event>, n: int, k: int) {
    forall m | n <= m < k :: 0 <= m < |es| ==> !es[m].Resume?
  }

  lemma {:induction false} TraceGrows(ss: seq<State>, es: seq<Event>, n: nat, k: nat, blocks: Fields -> bool)
    requires IsTrace(ss, es, blocks) && n <= k <= |es|
    ensures ss[n].processed <= ss[k].processed
    decreases k
  {
    if n < k {
      TraceGrows(ss, es, n, k - 1, blocks);
      assert StopsAtBlocking(ss[k - 1], ss[k], es[k - 1], blocks);
    }
  }

  lemma {:induction false} TraceWaits(ss: seq<State>, es: seq<Event>, n: nat, k: nat, blocks: Fields -> bool)
    requires IsTrace(ss, es, blocks) && n <= k <= |es| && ss[n].paused && NoResume(es, n, k)
    ensures ss[k].paused && ss[n].processed <= ss[k].processed
    ensures |ss[k].processed| <= |ss[n].processed| + (if IsBetween(ss[n]) then 0 else 1)
    ensures IsBetween(ss[n]) || |ss[k].processed| > |ss[n].processed| ==> IsBetween(ss[k])
    decreases k
  {
    if n < k {
      TraceWaits(ss, es, n, k - 1, blocks);
      assert StopsAtBlocking(ss[k - 1], ss[k], es[k - 1], blocks);
    }
  }

  /** A paused parser between two commands processes nothing, whatever data arrives, until it is resumed. */
  lemma PausedParserWaits(es: seq<Event>, n: nat, blocks: Fields -> bool)
    requires n <= |es| && RunEvents(es[..n], blocks).paused && NoResume(es, n, |es|)
    ensures
      var s, t := RunEvents(es[..n], blocks), RunEvents(es, blocks);
      && t.paused && s.processed <= t.processed
      && |t.processed| <= |s.processed| + (if IsBetween(s) then 0 else 1)
      && (IsBetween(s) || |t.processed| > |s.processed| ==> IsBetween(t))
  {
    var ss := TraceOf(es, blocks);
    TraceWaits(ss, es, n, |es|, blocks);
  }

  /** The n-th event pauses the parser: it is a pause, or the last command that it lets through blocks. */
  ghost predicate Pauses(before: State, after: State, e: Event, blocks: Fields -> bool) {
    e.Pause? || (|before.processed| < |after.processed| && blocks(after.processed[|after.processed| - 1]))
  }

  ghost predicate PausedSince(ss: seq<State>, es: seq<Event>, n: nat, k: nat, blocks: Fields -> bool)
    requires IsTrace(ss, es, blocks)
  {
    n < k <= |es| && Pauses(ss[n], ss[n + 1], es[n], blocks) && NoResume(es, n + 1, k)
  }

  lemma PausedSinceStep(ss: seq<State>, es: seq<Event>, n: nat, k: nat, blocks: Fields -> bool)
    requires IsTrace(ss, es, blocks) && n < k < |es|
    ensures PausedSince(ss, es, n, k + 1, blocks) <==> PausedSince(ss, es, n, k, blocks) && !es[k].Resume?
  {
    assert NoResume(es, n + 1, k + 1) <==> NoResume(es, n + 1, k) && !es[k].Resume?;
  }

  lemma {:induction false} TracePausedIff(ss: seq<State>, es: seq<Event>, k: nat, blocks: Fields -> bool)
    requires IsTrace(ss, es, blocks) && k <= |es|
    ensures ss[k].paused <==> exists n :: PausedSince(ss, es, n, k, blocks)
    decreases k
  {
    if k > 0 {
      var last := k - 1;
      TracePausedIff(ss, es, last, blocks);
      assert StopsAtBlocking(ss[last], ss[k], es[last], blocks);
      assert PausedSince(ss, es, last, k, blocks) <==> Pauses(ss[last], ss[k], es[last], blocks);
      if n: nat :| PausedSince(ss, es, n, k, blocks) && n < last {
        PausedSinceStep(ss, es, n, last, blocks);
      }
      if n: nat :| PausedSince(ss, es, n, last, blocks) {
        PausedSinceStep(ss, es, n, last, blocks);
      }
    }
  }

  /** Over any run: the parser is paused if and only if some event has paused it and none after it resumes it. */
  lemma PausedIff(es: seq<Event>, blocks: Fields -> bool)
    ensures RunEvents(es, blocks).paused <==>
      exists n: nat :: n < |es| && NoResume(es, n + 1, |es|) &&
                  Pauses(RunEvents(es[..n], blocks), RunEvents(es[..n + 1], blocks), es[n], blocks)
  {
    var ss := TraceOf(es, blocks);
    TracePausedIff(ss, es, |es|, blocks);
    if n: nat :| PausedSince(ss, es, n, |es|, blocks) {
      assert Pauses(RunEvents(es[..n], blocks), RunEvents(es[..n + 1], blocks), es[n], blocks);
    }
    if n: nat :| n < |es| && NoResume(es, n + 1, |es|) &&
                 Pauses(RunEvents(es[..n], blocks), RunEvents(es[..n + 1], blocks), es[n], blocks) {
      assert PausedSince(ss, es, n, |es|, blocks);
    }
  }

  lemma {:induction false} TraceNeedsResume(ss: seq<State>, es: seq<Event>, k: nat, j: nat, blocks: Fields -> bool)
    requires IsTrace(ss, es, blocks) && k <= |es| && j < |ss[k].processed| && blocks(ss[k].processed[j])
    requires forall i | 0 <= i < |es| :: OnlyLastBlocks(ss[i], ss[i + 1], blocks)
    ensures
      || (exists n :: 0 <= n < k && es[n].Resume? && |ss[n].processed| == j + 1)
      || (j == |ss[k].processed| - 1 && ss[k].paused && IsBetween(ss[k]))
    decreases k
  {
    assert k > 0;
    var s, t := ss[k - 1], ss[k];
    assert StopsAtBlocking(s, t, es[k - 1], blocks) && OnlyLastBlocks(s, t, blocks);
    if j < |s.processed| {
      TraceNeedsResume(ss, es, k - 1, j, blocks);
    }
  }

  /**
   Over any run, whatever the data: once a command that blocks was processed,
   another one is processed only after a resume in between; until then the
   parser is paused between the two.
   */
  lemma NextCommandNeedsResume(es: seq<Event>, j: nat, blocks: Fields -> bool)
    requires var s := RunEvents(es, blocks); j < |s.processed| && blocks(s.processed[j])
    ensures
      var s := RunEvents(es, blocks);
      || (exists n :: 0 <= n < |es| && es[n].Resume? && |RunEvents(es[..n], blocks).processed| == j + 1)
      || (j == |s.processed| - 1 && s.paused && IsBetween(s))
  {
    var ss := TraceOf(es, blocks);
    forall i | 0 <= i < |es| ensures OnlyLastBlocks(ss[i], ss[i + 1], blocks) {
      assert es[..i + 1][..i] == es[..i];
      ApplyOnlyLastBlocks(ss[i], es[i], blocks);
    }
    TraceNeedsResume(ss, es, |es|, j, blocks);
    if n :| 0 <= n < |es| && es[n].Resume? && |ss[n].processed| == j + 1 {
      assert |RunEvents(es[..n], blocks).processed| == j + 1;
    }
  }

  /**
   A command that blocks is the last one processed as long as no resume comes
   after the event in which it is processed, whatever data does; of encoded
   commands, exactly the first ones up to it have been processed.
   */
  lemma BlockedCommandIsLast(es: seq<Event>, n: nat, i: nat, commands: seq<Fields>, blocks: Fields -> bool)
    requires n < |es| && Received(es) == Encode(commands)
    requires |RunEvents(es[..n], blocks).processed| <= i < |RunEvents(es[..n + 1], blocks).processed|
    requires i < |commands| && blocks(commands[i]) && NoResume(es, n + 1, |es|)
    ensures RunEvents(es, blocks).processed == commands[..i + 1]
  {
    var p := RunEvents(es, blocks).processed;
    ParsingInvertsEncoding(es, commands, blocks);
    var ss := TraceOf(es, blocks);
    TraceGrows(ss, es, n + 1, |es|, blocks);
    NextCommandNeedsResume(es, i, blocks);
    forall m: int | 0 <= m <= n ensures |RunEvents(es[..m], blocks).processed| <= i {
      TraceGrows(ss, es, m, n, blocks);
    }
    assert p == commands[..|p|];
  }

  // ---------- arbitrary data ----------

  /** No field with a negative length is read before the generator is next suspended. */
  predicate LengthsAreNatural(s: State, blocks: Fields -> bool)
    decreases Work(s)
  {
    CanStep(s) ==> (s.phase.AwaitBody? ==> s.phase.length >= 0) && LengthsAreNatural(Next(s, blocks), blocks)
  }

  lemma MoreDataAfterLine(buf: Bytes, data: Bytes)
    requires LF in buf
    ensures
      var p := LineEnd(buf);
      LF in buf + data && LineEnd(buf + data) == p && (buf + data)[..p] == buf[..p] && (buf + data)[p..] == buf[p..] + data
  {
    var all, p := buf + data, LineEnd(buf);
    assert all[p - 1] == LF && all[..p - 1] == buf[..p - 1];
    FirstLineFeed(all, p);
  }

  lemma MoreDataAfterBody(buf: Bytes, data: Bytes, length: nat)
    requires |buf| >= length + 2
    ensures Take(buf + data, length) == Take(buf, length)
    ensures Drop(buf + data, length + 2) == Drop(buf, length + 2) + data
  {
  }

  lemma MoreDataDoesNotMatter(s: State, data: Bytes, blocks: Fields -> bool)
    requires CanStep(s) && (s.phase.AwaitBody? ==> s.phase.length >= 0)
    ensures CanStep(Append(s, data)) && Next(Append(s, data), blocks) == Append(Next(s, blocks), data)
  {
    if s.phase.AwaitBody? {
      MoreDataAfterBody(s.buf, data, s.phase.length);
    } else {
      MoreDataAfterLine(s.buf, data);
    }
  }

  lemma FirstLineFeed(s: Bytes, p: nat)
    requires 1 <= p <= |s| && s[p - 1] == LF && LF !in s[..p - 1]
    ensures LF in s && LineEnd(s) == p
  {
  }

  lemma {:induction false} SettlingEarly(s: State, data: Bytes, blocks: Fields -> bool)
    requires LengthsAreNatural(s, blocks)
    ensures Settle(Append(Settle(s, blocks), data), blocks) == Settle(Append(s, data), blocks)
    decreases Work(s)
  {
    if CanStep(s) {
      MoreDataDoesNotMatter(s, data, blocks);
      SettlingEarly(Next(s, blocks), data, blocks);
    }
  }

  lemma AppendTwice(s: State, first: Bytes, second: Bytes)
    ensures Append(Append(s, first), second) == Append(s, first + second)
  {
  }

  /** The i-th field of command number k has been taken, with this value, and will stay. */
  ghost predicate HasField(s: State, k: nat, i: nat, value: Bytes) {
    if k < |s.processed| then i < |s.processed[k]| && s.processed[k][i] == value
    else k == |s.processed| && i < |s.fields| && s.fields[i] == value && s.phase != AwaitCommand
  }

  lemma {:induction false} SettleKeepsField(s: State, k: nat, i: nat, value: Bytes, blocks: Fields -> bool)
    requires HasField(s, k, i, value)
    ensures HasField(Settle(s, blocks), k, i, value)
    decreases Work(s)
  {
    if CanStep(s) {
      assert HasField(Next(s, blocks), k, i, value);
      SettleKeepsField(Next(s, blocks), k, i, value, blocks);
    }
  }

  /** A header line that is malformed ends the parser, without a command; a count of 0 or less is a command without fields. */
  lemma HeaderResult(s: State, blocks: Fields -> bool)
    requires CanStep(s) && s.phase.AwaitCommand?
    ensures
      var p := LineEnd(s.buf);
      var n, t := LineNumber(s.buf[..p], STAR), Next(s, blocks);
      && (n.None? ==> t.phase.Dead? && t.processed == s.processed)
      && (n.Some? && n.value <= 0 ==> t.phase.AwaitCommand? && t.processed == s.processed + [[]] && t.buf == s.buf[p..])
      && (n.Some? && n.value > 0 ==> t.phase == AwaitHeader(n.value) && t.processed == s.processed && t.buf == s.buf[p..])
  {
  }

  /** Once it has ended, the parser processes nothing more, whatever happens. */
  lemma {:induction false} DeadForever(es: seq<Event>, n: nat, blocks: Fields -> bool)
    requires n <= |es| && RunEvents(es[..n], blocks).phase.Dead?
    ensures RunEvents(es, blocks).phase.Dead?
    ensures RunEvents(es, blocks).processed == RunEvents(es[..n], blocks).processed
  {
    if n == |es| {
      assert es[..n] == es;
    } else {
      var init := es[..|es| - 1];
      assert init[..n] == es[..n];
      DeadForever(init, n, blocks);
      DeadStays(RunEvents(init, blocks), es[|es| - 1], blocks);
    }
  }

  lemma DeadStays(s: State, e: Event, blocks: Fields -> bool)
    requires s.phase.Dead?
    ensures Apply(s, e, blocks).phase.Dead? && Apply(s, e, blocks).processed == s.processed
  {
  }

  /** A field of negative length takes more when more has arrived. */
  lemma NegativeLengthTakesMore(s: State, second: Bytes, blocks: Fields -> bool)
    requires CanStep(s) && s.phase.AwaitBody? && s.phase.length < 0 && |second| == 1 - s.phase.length
    ensures Settle(Append(Settle(s, blocks), second), blocks) != Settle(Append(s, second), blocks)
  {
    var k, i, length := |s.processed|, |s.fields|, s.phase.length;
    var value, larger := Take(s.buf, length), Take(s.buf + second, length);
    var late := Settle(s, blocks);
    SettleKeepsField(Next(s, blocks), k, i, value, blocks);
    assert HasField(Append(late, second), k, i, value);
    SettleKeepsField(Append(late, second), k, i, value, blocks);
    SettleKeepsField(Next(Append(s, second), blocks), k, i, larger, blocks);
    assert |larger| == |s.buf| + 1 > |value|;
  }

  lemma {:induction false} NegativeLengthShows(s: State, blocks: Fields -> bool) returns (second: Bytes)
    requires !LengthsAreNatural(s, blocks)
    ensures Settle(Append(Settle(s, blocks), second), blocks) != Settle(Append(s, second), blocks)
    decreases Work(s)
  {
    if s.phase.AwaitBody? && s.phase.length < 0 {
      second := seq(1 - s.phase.length, _ => 0);
      NegativeLengthTakesMore(s, second, blocks);
    } else {
      second := NegativeLengthShows(Next(s, blocks), blocks);
      MoreDataDoesNotMatter(s, second, blocks);
    }
  }

  /**
   Data, well formed or not, may be followed by any more data in the same
   piece or in another one if and only if no length in it is negative.
   */
  lemma ChunksCanBeJoinedIff(s: State, first: Bytes, blocks: Fields -> bool)
    ensures LengthsAreNatural(Append(s, first), blocks) <==>
      forall second :: Send(Send(s, first, blocks), second, blocks) == Send(s, first + second, blocks)
  {
    forall second: Bytes ensures Append(Append(s, first), second) == Append(s, first + second) {
      AppendTwice(s, first, second);
    }
    if LengthsAreNatural(Append(s, first), blocks) {
      forall second ensures Send(Send(s, first, blocks), second, blocks) == Send(s, first + second, blocks) {
        SettlingEarly(Append(s, first), second, blocks);
      }
    } else {
      var second := NegativeLengthShows(Append(s, first), blocks);
      assert Send(Send(s, first, blocks), second, blocks) != Send(s, first + second, blocks);
    }
  }

  lemma CommandLine(text: Bytes, n: int, rest: Bytes, blocks: Fields -> bool)
    requires LF !in text && ParseInt(text) == Some(n) && n >= 1
    ensures
      var s := State([STAR] + text + CRLF + rest, false, AwaitCommand, [], []);
      CanStep(s) && Next(s, blocks) == State(rest, false, AwaitHeader(n), [], [])
  {
    LineIsRead(STAR, text, rest);
  }

  lemma FieldLine(text: Bytes, n: int, rest: Bytes, left: nat, blocks: Fields -> bool)
    requires LF !in text && ParseInt(text) == Some(n)
    ensures
      var s := State([DOLLAR] + text + CRLF + rest, false, AwaitHeader(left), [], []);
      CanStep(s) && Next(s, blocks) == State(rest, false, AwaitBody(left, n), [], [])
  {
    LineIsRead(DOLLAR, text, rest);
  }

  /** What a client may send: the lines *1 and $-1, and then some data. */
  function NegativeLength(one: Bytes, minusOne: Bytes, data: Bytes): Bytes {
    [STAR] + one + CRLF + ([DOLLAR] + minusOne + CRLF + data)
  }

  predicate SpellOneAndMinusOne(one: Bytes, minusOne: Bytes) {
    LF !in one && LF !in minusOne && ParseInt(one) == Some(1) && ParseInt(minusOne) == Some(-1)
  }

  lemma TheNumbersCanBeSpelt()
    ensures SpellOneAndMinusOne([49], [45, 49])
  {
  }

  /** A new parser that has been sent some data. */
  function Fresh(data: Bytes): State {
    START.(buf := data)
  }

  /** The lines leave the parser waiting for a field of length -1. */
  lemma NegativeLengthIsAccepted(one: Bytes, minusOne: Bytes, data: Bytes, blocks: Fields -> bool)
    requires SpellOneAndMinusOne(one, minusOne)
    ensures Settle(Fresh(NegativeLength(one, minusOne, data)), blocks) ==
            Settle(State(data, false, AwaitBody(1, -1), [], []), blocks)
  {
    var second := [DOLLAR] + minusOne + CRLF + data;
    var s, t := Fresh([STAR] + one + CRLF + second), State(second, false, AwaitHeader(1), [], []);
    CommandLine(one, 1, second, blocks);
    assert Settle(s, blocks) == Settle(t, blocks);
    FieldLine(minusOne, -1, data, 1, blocks);
  }

  /** The body of that field is all that has arrived but its last byte. */
  lemma NegativeLengthBody(data: Bytes, blocks: Fields -> bool)
    requires data != []
    ensures
      Next(State(data, false, AwaitBody(1, -1), [], []), blocks) ==
      State(data[1..], blocks([data[..|data| - 1]]), AwaitCommand, [], [[data[..|data| - 1]]])
  {
    var body: Bytes := data[..|data| - 1];
    var none: Fields := [];
    assert none + [body] == [body];
    var nothing: seq<Fields> := [];
    assert nothing + [[body]] == [[body]];
  }

  /** One byte is not a command: at most, it ends the parser. */
  lemma OneByteIsNoCommand(done: seq<Fields>, buf: Bytes, blocks: Fields -> bool)
    requires |buf| <= 1
    ensures Settle(State(buf, false, AwaitCommand, [], done), blocks).processed == done
  {
  }

  lemma NegativeLengthIsRead(data: Bytes, blocks: Fields -> bool)
    requires 1 <= |data| <= 2 && forall f :: !blocks(f)
    ensures Settle(State(data, false, AwaitBody(1, -1), [], []), blocks).processed == [[data[..|data| - 1]]]
    ensures |data| == 1 ==>
              Settle(State(data, false, AwaitBody(1, -1), [], []), blocks) == State([], false, AwaitCommand, [], [[[]]])
  {
    var body := data[..|data| - 1];
    NegativeLengthBody(data, blocks);
    OneByteIsNoCommand([[body]], data[1..], blocks);
    assert |data| == 1 ==> body == [] && data[1..] == [];
  }

  /** So what is taken for the field depends on how the data was cut. */
  lemma NegativeLengthDependsOnChunks(one: Bytes, minusOne: Bytes, a: Byte, b: Byte, blocks: Fields -> bool)
    requires SpellOneAndMinusOne(one, minusOne) && forall f :: !blocks(f)
    ensures Settle(Fresh(NegativeLength(one, minusOne, [a, b])), blocks).processed == [[[a]]]
    ensures Send(Settle(Fresh(NegativeLength(one, minusOne, [a])), blocks), [b], blocks).processed == [[[]]]
  {
    NegativeLengthIsAccepted(one, minusOne, [a, b], blocks);
    NegativeLengthIsAccepted(one, minusOne, [a], blocks);
    NegativeLengthIsRead([a, b], blocks);
    NegativeLengthIsRead([a], blocks);
    assert [a, b][..1] == [a] && [a, b][1..] == [b] && [a][..0] == [] && [a][1..] == [];
    OneByteIsNoCommand([[[]]], [] + [b], blocks);
  }
}
