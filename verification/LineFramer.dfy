/** The line framer of the door panel: bytes from the card reader are collected in a fixed buffer, one call
  for each byte, and a call that sees a newline byte after some data completes a line.

  The buffer keeps one place free for the terminating NUL. When a byte arrives and only that place is left,
  the framer starts again at the beginning of the buffer, so a long line loses its front in whole bufferfuls. */
module LineFramer {
  import opened Bytes
  import opened Sequences

  predicate IsNewline(b: Byte) {
    b == LF || b == CR
  }

  predicate NoNewline(s: seq<Byte>) {
    forall i :: 0 <= i < |s| ==> !IsNewline(s[i])
  }

  predicate AllNewlines(s: seq<Byte>) {
    forall i :: 0 <= i < |s| ==> IsNewline(s[i])
  }

  /** A completed line, and the place in the stream of the newline byte that completed it. */
  datatype Line = Line(bytes: seq<Byte>, at: nat)

  // What the framer does to the bytes it holds

  /** The held bytes after another data byte, in a buffer of `size` places. */
  function Push(size: nat, held: seq<Byte>, b: Byte): seq<Byte> {
    if |held| + 1 >= size then [b] else held + [b]
  }

  /** The line made of the held bytes: a newline byte at the end would be left out. */
  function LineOf(held: seq<Byte>): seq<Byte> {
    if held != [] && IsNewline(held[|held| - 1]) then held[..|held| - 1] else held
  }

  datatype Framed = Framed(held: seq<Byte>, lines: seq<Line>)

  function Feed(size: nat, f: Framed, b: Byte, at: nat): Framed {
    if !IsNewline(b) then f.(held := Push(size, f.held, b))
    else if f.held == [] then f
    else Framed([], f.lines + [Line(LineOf(f.held), at)])
  }

  /** The framer after a whole stream. */
  function Frame(size: nat, s: seq<Byte>): Framed {
    if s == [] then Framed([], [])
    else
      var last := |s| - 1;
      Feed(size, Frame(size, s[..last]), s[last], last)
  }

  // What a line is, buffers aside

  /** The non-empty runs of data bytes that a newline byte has ended, and the run not ended yet. */
  function Runs(s: seq<Byte>): Framed {
    if s == [] then Framed([], [])
    else
      var last := |s| - 1;
      var r := Runs(s[..last]);
      if !IsNewline(s[last]) then r.(held := r.held + [s[last]])
      else if r.held == [] then r
      else Framed([], r.lines + [Line(r.held, last)])
  }

  /** How many bytes of a run of `n` bytes are left in a buffer of `size` places. */
  function KeptLength(size: nat, n: nat): (k: nat)
    requires size >= 2
    ensures k <= n && k < size && (k == 0 <==> n == 0)
  {
    if n == 0 then 0
    else
      assert (n - 1) % (size - 1) <= n - 1 by { ModIsSmall(n - 1, size - 1); }
      (n - 1) % (size - 1) + 1
  }

  /** The part of a run that survives: its end. */
  function Kept(size: nat, run: seq<Byte>): seq<Byte>
    requires size >= 2
  {
    run[|run| - KeptLength(size, |run|)..]
  }

  function KeptLines(size: nat, lines: seq<Line>): (kept: seq<Line>)
    requires size >= 2
    ensures |kept| == |lines|
    ensures forall i :: 0 <= i < |lines| ==> kept[i] == Line(Kept(size, lines[i].bytes), lines[i].at)
  {
    seq(|lines|, i requires 0 <= i < |lines| => Line(Kept(size, lines[i].bytes), lines[i].at))
  }

  lemma ModIsSmall(n: nat, m: nat)
    requires m > 0
    ensures n % m <= n && n % m < m
  {
    if n >= m {
      assert n % m < m;
    } else {
      assert n % m == n;
    }
  }

  lemma ModOfNext(n: nat, m: nat)
    requires m > 0
    ensures (n + 1) % m == if n % m == m - 1 then 0 else n % m + 1
  {
    var q, q' := n / m, (n + 1) / m;
    MulDistributes(q', q, m);
    NextRemainder(q' - q, m, n % m, (n + 1) % m);
  }

  lemma MulDistributes(a: int, b: int, m: int)
    ensures (a - b) * m == a * m - b * m
  {
  }

  lemma NextRemainder(d: int, m: nat, r: nat, r': nat)
    requires r < m && r' < m && d * m == r + 1 - r'
    ensures r' == if r == m - 1 then 0 else r + 1
  {
    MulIsFar(d, m);
    if d == 0 {
    } else {
      assert d == 1;
    }
  }

  lemma MulIsFar(d: int, m: int)
    requires m >= 0
    ensures d >= 2 ==> d * m >= 2 * m
    ensures d <= -1 ==> d * m <= -m
  {
  }

  lemma PushKeepsTheEnd(size: nat, run: seq<Byte>, b: Byte)
    requires size >= 2
    ensures Push(size, Kept(size, run), b) == Kept(size, run + [b])
  {
    if run != [] {
      ModOfNext(|run| - 1, size - 1);
    }
  }

  lemma {:induction false} RunsHoldNoNewline(s: seq<Byte>)
    ensures NoNewline(Runs(s).held)
    ensures forall l :: l in Runs(s).lines ==> l.bytes != [] && NoNewline(l.bytes) && l.at < |s|
  {
    if s != [] {
      RunsHoldNoNewline(s[..|s| - 1]);
    }
  }

  /** The whole stream: the framer emits one line for each non-empty run, in order and at the byte that ends
    the run, and the line is exactly the last ((n - 1) mod (size - 1)) + 1 bytes of a run of n. */
  lemma {:induction false} FramerEmitsTheEndOfEachRun(size: nat, s: seq<Byte>)
    requires size >= 2
    ensures Frame(size, s).lines == KeptLines(size, Runs(s).lines)
    ensures Frame(size, s).held == Kept(size, Runs(s).held)
  {
    if s != [] {
      var last := |s| - 1;
      var r := Runs(s[..last]);
      FramerEmitsTheEndOfEachRun(size, s[..last]);
      if !IsNewline(s[last]) {
        PushKeepsTheEnd(size, r.held, s[last]);
      } else {
        RunsHoldNoNewline(s[..last]);
        StoredNewlineIsNeverFound(size, s[..last]);
        assert Frame(size, s).lines == KeptLines(size, Runs(s).lines);
      }
    }
  }

  /** The framer never holds a newline byte, so it never has one to drop from the end of a line. */
  lemma {:induction false} StoredNewlineIsNeverFound(size: nat, s: seq<Byte>)
    ensures NoNewline(Frame(size, s).held)
    ensures LineOf(Frame(size, s).held) == Frame(size, s).held
  {
    if s != [] {
      StoredNewlineIsNeverFound(size, s[..|s| - 1]);
    }
  }

  /** A byte ends a line exactly when it is CR or LF and some data is held. */
  lemma ByteEndsLineIff(size: nat, s: seq<Byte>, b: Byte)
    ensures |Frame(size, s + [b]).lines| == |Frame(size, s).lines| + 1
            <==> (b == 13 || b == 10) && Frame(size, s).held != []
  {
    assert (s + [b])[..|s|] == s;
  }

  // Composition and round trip

  function Later(lines: seq<Line>, shift: nat): (later: seq<Line>)
    ensures |later| == |lines|
    ensures forall i :: 0 <= i < |lines| ==> later[i] == Line(lines[i].bytes, lines[i].at + shift)
  {
    seq(|lines|, i requires 0 <= i < |lines| => Line(lines[i].bytes, lines[i].at + shift))
  }

  /** A stream cut where the framer holds nothing (after a newline byte, say) is framed piece by piece. */
  lemma {:induction false} FramingComposes(size: nat, xs: seq<Byte>, ys: seq<Byte>)
    requires Frame(size, xs).held == []
    ensures Frame(size, xs + ys).held == Frame(size, ys).held
    ensures Frame(size, xs + ys).lines == Frame(size, xs).lines + Later(Frame(size, ys).lines, |xs|)
  {
    if ys == [] {
      assert xs + ys == xs;
    } else {
      var last := |ys| - 1;
      FramingComposes(size, xs, ys[..last]);
      assert (xs + ys)[..|xs| + last] == xs + ys[..last];
      FeedComposes(size, Frame(size, xs).lines, Frame(size, xs + ys[..last]), Frame(size, ys[..last]),
                   ys[last], last, |xs|);
    }
  }

  lemma FeedComposes(size: nat, before: seq<Line>, f: Framed, g: Framed, b: Byte, at: nat, shift: nat)
    requires f == Framed(g.held, before + Later(g.lines, shift))
    ensures Feed(size, f, b, shift + at)
            == Framed(Feed(size, g, b, at).held, before + Later(Feed(size, g, b, at).lines, shift))
  {
    var l := Line(LineOf(g.held), at);
    assert Later(g.lines + [l], shift) == Later(g.lines, shift) + [Line(l.bytes, l.at + shift)];
  }

  /** In particular, what follows a newline byte is framed as if the stream began there. */
  lemma FramingRestartsAfterNewline(size: nat, xs: seq<Byte>, newline: Byte, ys: seq<Byte>)
    requires IsNewline(newline)
    ensures Frame(size, xs + [newline] + ys).lines
            == Frame(size, xs + [newline]).lines + Later(Frame(size, ys).lines, |xs| + 1)
  {
    assert (xs + [newline])[..|xs|] == xs;
    FramingComposes(size, xs + [newline], ys);
  }

  /** Each line followed by its own terminator. */
  function Written(lines: seq<seq<Byte>>, ends: seq<seq<Byte>>): seq<Byte>
    requires |lines| == |ends|
  {
    if lines == [] then []
    else
      var last := |lines| - 1;
      Written(lines[..last], ends[..last]) + lines[last] + ends[last]
  }

  function LineBytes(lines: seq<Line>): (s: seq<seq<Byte>>)
    ensures |s| == |lines|
    ensures forall i :: 0 <= i < |lines| ==> s[i] == lines[i].bytes
  {
    seq(|lines|, i requires 0 <= i < |lines| => lines[i].bytes)
  }

  lemma {:induction false} DataIsHeld(size: nat, s: seq<Byte>)
    requires NoNewline(s) && |s| < size
    ensures Frame(size, s) == Framed(s, [])
  {
    if s != [] {
      var last := |s| - 1;
      DataIsHeld(size, s[..last]);
      assert Frame(size, s) == Feed(size, Framed(s[..last], []), s[last], last);
      TakeOneMore([], s, last);
    }
  }

  /** The first newline byte completes the line; the rest of the terminator adds nothing. */
  lemma {:induction false} TerminatorCompletesOnce(size: nat, s: seq<Byte>, end: seq<Byte>)
    requires s != [] && NoNewline(s) && |s| < size
    requires end != [] && AllNewlines(end)
    ensures Frame(size, s + end) == Framed([], [Line(s, |s|)])
  {
    var last := |end| - 1;
    assert (s + end)[..|s| + last] == s + end[..last];
    if last == 0 {
      assert s + end[..last] == s;
      DataIsHeld(size, s);
    } else {
      TerminatorCompletesOnce(size, s, end[..last]);
    }
  }

  /** Any lines that fit the buffer come back exactly, whatever mix of CR and LF ended each of them. */
  lemma {:induction false} WrittenLinesComeBack(size: nat, lines: seq<seq<Byte>>, ends: seq<seq<Byte>>)
    requires |lines| == |ends|
    requires forall i :: 0 <= i < |lines| ==> lines[i] != [] && NoNewline(lines[i]) && |lines[i]| < size
    requires forall i :: 0 <= i < |ends| ==> ends[i] != [] && AllNewlines(ends[i])
    ensures Frame(size, Written(lines, ends)).held == []
    ensures LineBytes(Frame(size, Written(lines, ends)).lines) == lines
  {
    if lines != [] {
      var last := |lines| - 1;
      WrittenLinesComeBack(size, lines[..last], ends[..last]);
      OneMoreLineComesBack(size, Written(lines[..last], ends[..last]), lines[last], ends[last]);
      LastApart(lines);
    }
  }

  lemma OneMoreLineComesBack(size: nat, front: seq<Byte>, line: seq<Byte>, end: seq<Byte>)
    requires Frame(size, front).held == []
    requires line != [] && NoNewline(line) && |line| < size && end != [] && AllNewlines(end)
    ensures Frame(size, front + line + end).held == []
    ensures LineBytes(Frame(size, front + line + end).lines) == LineBytes(Frame(size, front).lines) + [line]
  {
    TerminatorCompletesOnce(size, line, end);
    FramingComposes(size, front, line + end);
    Associative(front, line, end);
    LineBytesGrow(Frame(size, front).lines, Line(line, |line|), |front|);
  }

  lemma LineBytesGrow(lines: seq<Line>, line: Line, delay: nat)
    ensures LineBytes(lines + Later([line], delay)) == LineBytes(lines) + [line.bytes]
  {
  }

  /** The size of both buffers of the firmware. */
  const CHAR_BUFFER_SIZE: nat := 128

  class CharBuffer {
    const size: nat
    const buffer: array<Byte>
    var pos: nat
    ghost var seen: seq<Byte>

    ghost predicate InBounds()
      reads this
    {
      size >= 2 && buffer.Length == size && pos < size
    }

    ghost function Held(): seq<Byte>
      reads this, buffer
      requires InBounds()
    {
      buffer[..pos]
    }

    /** The buffer is where the stream seen so far leaves a framer. */
    ghost predicate Tracks()
      reads this, buffer
    {
      InBounds() && Held() == Frame(size, seen).held
    }

    constructor InitBuffer()
      ensures size == CHAR_BUFFER_SIZE && seen == [] && Tracks()
      ensures fresh(buffer) && buffer[0] == NUL
    {
      size := CHAR_BUFFER_SIZE;
      buffer := new Byte[CHAR_BUFFER_SIZE](_ => 0);
      pos := 0;
      seen := [];
      new;
      buffer[0] := NUL;
    }

    /** Takes one byte; says whether it completed a line, which is then in the buffer as a C string. */
    method ReadOrDumpBuffer(newChar: Byte) returns (complete: bool)
      requires InBounds()
      modifies this, buffer
      ensures InBounds() && seen == old(seen) + [newChar]
      ensures complete <==> IsNewline(newChar) && old(Held()) != []
      ensures Held() == if IsNewline(newChar) then [] else Push(size, old(Held()), newChar)
      ensures buffer[..] == if !IsNewline(newChar) then old(buffer[..])[pos - 1 := newChar]
                            else if complete then old(buffer[..])[|LineOf(old(Held()))| := NUL]
                            else old(buffer[..])
      ensures old(Tracks()) ==>
                Tracks() && Frame(size, seen) == Feed(size, Frame(size, old(seen)), newChar, |old(seen)|)
    {
      ghost var held := Held();
      assert (seen + [newChar])[..|seen|] == seen;
      seen := seen + [newChar];
      if newChar == LF || newChar == CR {
        if pos == 0 {
          return false;
        } else {
          var lastChar := buffer[pos - 1];
          if lastChar == LF || lastChar == CR {
            pos := pos - 1;
          }
          assert held[..pos] == LineOf(held);
          buffer[pos] := NUL;
          pos := 0;
          return true;
        }
      } else {
        if pos + 1 >= size {
          pos := 0;
        }
        buffer[pos] := newChar;
        pos := pos + 1;
        return false;
      }
    }
  }
}
