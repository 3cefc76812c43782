/** What the panel writes to the host for each completed line: the tag that was read, or BADREAD. */
module TagReports {
  import opened Bytes
  import opened Sequences
  import opened LineFramer

  const TAG_LENGTH: nat := 10

  const TAG: seq<Byte> := [84, 65, 71, 124]
  const BADREAD: seq<Byte> := [66, 65, 68, 82, 69, 65, 68]

  datatype Report = Tag(code: seq<Byte>) | BadRead

  /** The length of the C string at the start of `s`; the end of `s` also ends it. */
  function CLength(s: seq<Byte>): (n: nat)
    ensures n <= |s| && NUL !in s[..n] && (n < |s| ==> s[n] == NUL)
  {
    if s == [] || s[0] == NUL then 0 else 1 + CLength(s[1..])
  }

  /** A line is a tag when it is as long as one and the panel is idle at that moment. */
  function ReportOf(line: seq<Byte>, idle: bool): Report {
    if CLength(line) == TAG_LENGTH && idle then Tag(line[..TAG_LENGTH]) else BadRead
  }

  function Body(r: Report): seq<Byte> {
    match r
    case Tag(code) => TAG + code
    case BadRead => BADREAD
  }

  function Text(reports: seq<Report>): seq<Byte> {
    if reports == [] then [] else Text(reports[..|reports| - 1]) + Body(reports[|reports| - 1]) + [CR, LF]
  }

  function BytesOf(cards: seq<CardByte>): (s: seq<Byte>)
    ensures |s| == |cards|
    ensures forall i :: 0 <= i < |cards| ==> s[i] == cards[i].b
  {
    seq(|cards|, i requires 0 <= i < |cards| => cards[i].b)
  }

  /** One report for each line, depending on whether the panel is idle when the byte that ends the line is taken. */
  function Reports(lines: seq<Line>, cards: seq<CardByte>): (reports: seq<Report>)
    requires forall l :: l in lines ==> l.at < |cards|
    ensures |reports| == |lines|
    ensures forall i :: 0 <= i < |lines| ==> reports[i] == ReportOf(lines[i].bytes, cards[lines[i].at].idle)
  {
    seq(|lines|, i requires 0 <= i < |lines| => ReportOf(lines[i].bytes, cards[lines[i].at].idle))
  }

  function StreamReports(size: nat, cards: seq<CardByte>): seq<Report> {
    LinesEndInStream(size, BytesOf(cards));
    Reports(Frame(size, BytesOf(cards)).lines, cards)
  }

  lemma {:induction false} LinesEndInStream(size: nat, s: seq<Byte>)
    ensures forall l :: l in Frame(size, s).lines ==> l.at < |s|
  {
    if s != [] {
      LinesEndInStream(size, s[..|s| - 1]);
    }
  }

  lemma {:induction false} CLengthIs(s: seq<Byte>, n: nat)
    requires n <= |s| && NUL !in s[..n] && (n < |s| ==> s[n] == NUL)
    ensures CLength(s) == n
  {
    if n > 0 {
      assert s[0] in s[..n];
      assert s[1..][..n - 1] == s[..n][1..];
      CLengthIs(s[1..], n - 1);
    }
  }

  lemma CLengthOfPrefix(line: seq<Byte>, s: seq<Byte>)
    requires line + [NUL] <= s
    ensures CLength(s) == CLength(line)
  {
    var n := CLength(line);
    assert s[..n] == line[..n];
    CLengthIs(s, n);
  }

  lemma BytesGrow(cards: seq<CardByte>, c: CardByte)
    ensures BytesOf(cards + [c]) == BytesOf(cards) + [c.b]
  {
  }

  lemma StreamReportsGrow(size: nat, cards: seq<CardByte>, c: CardByte)
    ensures var f := Frame(size, BytesOf(cards));
            && Frame(size, BytesOf(cards + [c])) == Feed(size, f, c.b, |cards|)
            && StreamReports(size, cards + [c])
               == StreamReports(size, cards)
                  + if IsNewline(c.b) && f.held != [] then [ReportOf(LineOf(f.held), c.idle)] else []
  {
    var s := BytesOf(cards);
    BytesGrow(cards, c);
    assert (s + [c.b])[..|s|] == s;
    LinesEndInStream(size, s);
    LinesEndInStream(size, s + [c.b]);
  }

  lemma TextOfAppended(reports: seq<Report>, more: seq<Report>)
    requires |more| <= 1
    ensures Text(reports + more) == Text(reports) + Text(more)
  {
    if more == [] {
      assert reports + more == reports;
    } else {
      assert (reports + more)[..|reports|] == reports;
      assert Text(more) == Body(more[0]) + [CR, LF];
    }
  }

  /** What the firmware has written for the bytes it has taken. */
  function Output(size: nat, cards: seq<CardByte>): seq<Byte> {
    Text(StreamReports(size, cards))
  }

  /** What one more byte adds to the output. */
  lemma OutputGrows(size: nat, cards: seq<CardByte>, c: CardByte)
    ensures var f := Frame(size, BytesOf(cards));
            && Frame(size, BytesOf(cards + [c])) == Feed(size, f, c.b, |cards|)
            && Output(size, cards + [c])
               == Output(size, cards)
                  + if IsNewline(c.b) && f.held != [] then Body(ReportOf(LineOf(f.held), c.idle)) + [CR, LF] else []
  {
    var held := Frame(size, BytesOf(cards)).held;
    var report := if IsNewline(c.b) && held != [] then [ReportOf(LineOf(held), c.idle)] else [];
    StreamReportsGrow(size, cards, c);
    TextOfAppended(StreamReports(size, cards), report);
    TextOfOne(ReportOf(LineOf(held), c.idle));
  }

  lemma TextOfOne(r: Report)
    ensures Text([r]) == Body(r) + [CR, LF]
  {
    assert [r][..0] == [];
  }

  /** Takes a byte that is waiting and returns the text for the host. `before` are the bytes taken earlier. */
  method ServeByte(tagBuffer: CharBuffer, ghost before: seq<CardByte>, b: Byte, idle: bool, ghost readerOn: bool)
    returns (text: seq<Byte>)
    requires tagBuffer.Tracks() && tagBuffer.seen == BytesOf(before)
    modifies tagBuffer, tagBuffer.buffer
    ensures tagBuffer.Tracks()
    ensures var after := before + [CardByte(b, idle, readerOn)];
            tagBuffer.seen == BytesOf(after) && Output(tagBuffer.size, after) == Output(tagBuffer.size, before) + text
  {
    ghost var held, c := tagBuffer.Held(), CardByte(b, idle, readerOn);
    BytesGrow(before, c);
    OutputGrows(tagBuffer.size, before, c);
    text := [];
    var complete := tagBuffer.ReadOrDumpBuffer(b);
    if complete {
      ghost var line := LineOf(held);
      assert tagBuffer.buffer[..][..|line| + 1] == line + [NUL];
      text := WriteReport(tagBuffer.buffer, line, idle);
    }
  }

  /** Writes the report of the line that the buffer starts with. */
  method WriteReport(buffer: array<Byte>, ghost line: seq<Byte>, idle: bool) returns (text: seq<Byte>)
    requires line + [NUL] <= buffer[..]
    ensures text == Body(ReportOf(line, idle)) + [CR, LF]
  {
    CLengthOfPrefix(line, buffer[..]);
    var length := StringLength(buffer);
    if length == TAG_LENGTH && idle {
      assert buffer[..length] == line[..length];
      text := TAG + buffer[..length] + [CR, LF];
    } else {
      text := BADREAD + [CR, LF];
    }
  }

  /** The C library's strlen. */
  method StringLength(buffer: array<Byte>) returns (n: nat)
    ensures n == CLength(buffer[..])
  {
    n := 0;
    while n < buffer.Length && buffer[n] != NUL
      invariant 0 <= n <= buffer.Length
      invariant NUL !in buffer[..n]
    {
      n := n + 1;
    }
    assert buffer[..][..n] == buffer[..n];
    CLengthIs(buffer[..], n);
  }

  function Ascii(text: string): (s: seq<Byte>)
    requires forall i :: 0 <= i < |text| ==> text[i] < 128 as char
    ensures |s| == |text|
    ensures forall i :: 0 <= i < |text| ==> s[i] == text[i] as int
  {
    seq(|text|, i requires 0 <= i < |text| => text[i] as int)
  }

  /** What the host is sent for one line, letter by letter. */
  lemma ReportsInAscii(code: seq<Byte>)
    ensures Text([Tag(code)]) == Ascii("TAG|") + code + [13, 10]
    ensures Text([BadRead]) == Ascii("BADREAD") + [13, 10]
  {
    TextOfOne(Tag(code));
    TextOfOne(BadRead);
    assert Ascii("TAG|") == TAG;
    assert Ascii("BADREAD") == BADREAD;
  }

  // Reading the text back

  /** Cuts a text after each CR LF; `acc` is what has been read of the current record. */
  function Records(acc: seq<Byte>, text: seq<Byte>): seq<seq<Byte>>
    decreases |text|
  {
    if |text| < 2 then []
    else if text[0] == CR && text[1] == LF then [acc] + Records([], text[2..])
    else Records(acc + [text[0]], text[1..])
  }

  function Read(record: seq<Byte>): Report {
    if TAG <= record then Tag(record[|TAG|..]) else BadRead
  }

  function ReadAll(records: seq<seq<Byte>>): (reports: seq<Report>)
    ensures |reports| == |records|
    ensures forall i :: 0 <= i < |records| ==> reports[i] == Read(records[i])
  {
    seq(|records|, i requires 0 <= i < |records| => Read(records[i]))
  }

  lemma {:induction false} OneRecord(acc: seq<Byte>, body: seq<Byte>, rest: seq<Byte>)
    requires NoNewline(body)
    ensures Records(acc, body + [CR, LF] + rest) == [acc + body] + Records([], rest)
    decreases |body|
  {
    var text := body + [CR, LF] + rest;
    if body == [] {
      assert text[2..] == rest;
      assert acc + body == acc;
    } else {
      assert text[0] == body[0] && body[0] in body;
      assert text[1..] == body[1..] + [CR, LF] + rest;
      OneRecord(acc + [body[0]], body[1..], rest);
      assert acc + [body[0]] + body[1..] == acc + body;
    }
  }

  /** Cutting the text at CR LF and reading each record gives back the reports, none lost, merged or split. */
  lemma {:induction false} ReportsReadBack(reports: seq<Report>, rest: seq<Byte>)
    requires forall i :: 0 <= i < |reports| ==> NoNewline(Body(reports[i]))
    ensures ReadAll(Records([], Text(reports) + rest)) == reports + ReadAll(Records([], rest))
    decreases |reports|
  {
    if reports == [] {
      assert Text(reports) + rest == rest;
    } else {
      var front, r := reports[..|reports| - 1], reports[|reports| - 1];
      ReportsReadBack(front, Body(r) + [CR, LF] + rest);
      OneMoreReadsBack(front, r, rest);
      LastApart(reports);
    }
  }

  lemma OneMoreReadsBack(reports: seq<Report>, r: Report, rest: seq<Byte>)
    requires NoNewline(Body(r))
    requires var tail := Body(r) + [CR, LF] + rest;
             ReadAll(Records([], Text(reports) + tail)) == reports + ReadAll(Records([], tail))
    ensures ReadAll(Records([], Text(reports + [r]) + rest)) == reports + [r] + ReadAll(Records([], rest))
  {
    TextOfOneMore(reports, r, rest);
    OneReportReadsBack(r, rest);
    Associative(reports, [r], ReadAll(Records([], rest)));
  }

  lemma TextOfOneMore(reports: seq<Report>, r: Report, rest: seq<Byte>)
    ensures Text(reports + [r]) + rest == Text(reports) + (Body(r) + [CR, LF] + rest)
  {
    assert (reports + [r])[..|reports|] == reports;
  }

  lemma OneReportReadsBack(r: Report, rest: seq<Byte>)
    requires NoNewline(Body(r))
    ensures ReadAll(Records([], Body(r) + [CR, LF] + rest)) == [r] + ReadAll(Records([], rest))
  {
    OneRecord([], Body(r), rest);
    BodyReadsBack(r);
  }

  lemma BodyReadsBack(r: Report)
    ensures Read([] + Body(r)) == r
  {
    if r.Tag? {
      assert (TAG + r.code)[|TAG|..] == r.code;
    } else {
      assert BADREAD[0] != TAG[0];
    }
  }

  lemma ReportHoldsNoNewline(line: seq<Byte>, idle: bool)
    requires NoNewline(line)
    ensures NoNewline(Body(ReportOf(line, idle)))
  {
  }

  /** From the card reader to the host and back: whatever the bytes were and whenever the panel was idle, the
    host reads one report for each non-empty run of data bytes. It is a tag exactly when the panel was idle at
    the end of the run and the C string left in the buffer was ten bytes long, and then it is that string. */
  lemma HostReadsOneReportPerRun(size: nat, cards: seq<CardByte>)
    requires size >= 2
    ensures var runs := Runs(BytesOf(cards)).lines;
            var reports := ReadAll(Records([], Output(size, cards)));
            && |reports| == |runs|
            && forall i :: 0 <= i < |runs| ==>
                 && runs[i].at < |cards|
                 && reports[i] == ReportOf(Kept(size, runs[i].bytes), cards[runs[i].at].idle)
  {
    var s := BytesOf(cards);
    var runs := Runs(s).lines;
    var reports := StreamReports(size, cards);
    FramerEmitsTheEndOfEachRun(size, s);
    RunsHoldNoNewline(s);
    forall i | 0 <= i < |runs| ensures NoNewline(Body(reports[i])) {
      assert runs[i] in runs;
      ReportHoldsNoNewline(Kept(size, runs[i].bytes), cards[runs[i].at].idle);
    }
    ReportsReadBack(reports, []);
    assert Text(reports) + [] == Text(reports) && reports + [] == reports;
    forall i | 0 <= i < |runs| ensures runs[i].at < |cards| {
      assert runs[i] in runs;
    }
  }

  /** The part of a run that is left in the firmware's buffer, which is what an idle panel judges it by. */
  function Left(run: seq<Byte>): seq<Byte> {
    Kept(CHAR_BUFFER_SIZE, run)
  }

  /** Which runs pass for tags: those that leave exactly ten bytes and no NUL, and those that leave more with the
    first NUL right behind ten bytes. The tag is then the first ten bytes of what is left. */
  lemma RunsThatPassForTags(run: seq<Byte>)
    requires run != []
    ensures ReportOf(Left(run), true).Tag?
            <==> || (NUL !in Left(run) && |run| % 127 == TAG_LENGTH)
                 || (|Left(run)| > TAG_LENGTH && Left(run)[TAG_LENGTH] == NUL && NUL !in Left(run)[..TAG_LENGTH])
    ensures ReportOf(Left(run), true).Tag? ==> ReportOf(Left(run), true) == Tag(Left(run)[..TAG_LENGTH])
  {
    var line := Left(run);
    assert |line| == (|run| - 1) % 127 + 1;
    if NUL !in line {
      CLengthIs(line, |line|);
    } else if |line| > TAG_LENGTH && line[TAG_LENGTH] == NUL && NUL !in line[..TAG_LENGTH] {
      CLengthIs(line, TAG_LENGTH);
    }
  }

  /** A run without NUL passes for a tag exactly when its length mod 127 is 10, and the tag is its last ten bytes. */
  lemma LongRunsCanPassForTags(run: seq<Byte>)
    requires run != [] && NUL !in run
    ensures ReportOf(Left(run), true).Tag? <==> |run| % 127 == TAG_LENGTH
    ensures |run| % 127 == TAG_LENGTH ==> ReportOf(Left(run), true) == Tag(run[|run| - TAG_LENGTH..])
  {
    RunsThatPassForTags(run);
    assert |Left(run)| == (|run| - 1) % 127 + 1;
    assert forall b :: b in Left(run) ==> b in run;
  }

  /** So runs pass that are no tag codes: 137 equal bytes, of which ten are left, and twenty bytes of which all
    are left, with a NUL behind the first ten. */
  lemma RunsPassThatAreNoTags(long: seq<Byte>, short: seq<Byte>)
    requires long == seq(137, _ => 65)
    requires short == seq(20, i => if i == 10 then 0 else 65)
    ensures ReportOf(Left(long), true) == ReportOf(Left(short), true) == Tag(seq(10, _ => 65))
  {
    LongRunsCanPassForTags(long);
    assert long[127..] == seq(10, _ => 65);
    RunsThatPassForTags(short);
    assert Left(short) == short;
    assert short[..10] == seq(10, _ => 65);
  }
}
