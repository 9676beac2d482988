/**
 Turning the byte stream of the input FIFO into messages: one per line, assembled in a
 fixed buffer that persists across reads. `Assembled` describes the result for a whole
 input at once: cut at newlines, then every over-long line into blocks.
 */
module Lines {
  import opened FieldCodec
  import Ring

  // ----- The whole input at once -----

  /** The text between newlines; the last segment is the unterminated rest. */
  function Segments(s: string): (r: seq<string>)
    ensures r != []
  {
    if s == [] then [""]
    else
      var n := |s| - 1;
      var before := Segments(s[..n]);
      var m := |before| - 1;
      if s[n] == '\n' then before + [""] else before[m := before[m] + [s[n]]]
  }

  /** The segments with their newlines back between them. */
  function WithNewlines(segs: seq<string>): string {
    if segs == [] then "" else if |segs| == 1 then segs[0]
    else WithNewlines(segs[..|segs| - 1]) + "\n" + segs[|segs| - 1]
  }

  lemma LastSegmentGrows(segs: seq<string>, c: char)
    requires segs != []
    ensures var m := |segs| - 1;
            WithNewlines(segs[m := segs[m] + [c]]) == WithNewlines(segs) + [c]
  {
    var m := |segs| - 1;
    var more := segs[m := segs[m] + [c]];
    assert more[..m] == segs[..m];
    if m > 0 {
      var front := WithNewlines(segs[..m]) + "\n";
      assert front + (segs[m] + [c]) == (front + segs[m]) + [c];
    }
  }

  lemma NewSegment(segs: seq<string>)
    requires segs != []
    ensures WithNewlines(segs + [""]) == WithNewlines(segs) + "\n"
  {
    assert (segs + [""])[..|segs|] == segs;
  }

  /** Cutting at newlines loses nothing and leaves none. */
  lemma {:induction false} SegmentsExact(s: string)
    ensures WithNewlines(Segments(s)) == s
    ensures forall i :: 0 <= i < |Segments(s)| ==> '\n' !in Segments(s)[i]
  {
    if s != [] {
      var n := |s| - 1;
      SegmentsExact(s[..n]);
      assert s == s[..n] + [s[n]];
      if s[n] == '\n' {
        NewSegment(Segments(s[..n]));
      } else {
        LastSegmentGrows(Segments(s[..n]), s[n]);
      }
    }
  }

  /** Full blocks of `max` characters, each followed by one lost character, and the rest. */
  function Blocks(seg: string, max: nat): (r: (seq<string>, string))
    requires max > 0
    ensures |r.1| <= max && forall b :: b in r.0 ==> |b| == max
    ensures r.0 == [] <==> |seg| <= max
    ensures |seg| <= max ==> r.1 == seg
  {
    if |seg| <= max then ([], seg)
    else
      var (blocks, rest) := Blocks(seg[max + 1..], max);
      ([seg[..max]] + blocks, rest)
  }

  function NonEmpty(s: string): seq<string> {
    if s == "" then [] else [s]
  }

  /** What a line becomes once its newline is read. */
  function Terminated(seg: string, max: nat): seq<string>
    requires max > 0
  {
    Blocks(seg, max).0 + NonEmpty(Blocks(seg, max).1)
  }

  function AllTerminated(segs: seq<string>, max: nat): seq<string>
    requires max > 0
  {
    if segs == [] then []
    else AllTerminated(segs[..|segs| - 1], max) + Terminated(segs[|segs| - 1], max)
  }

  /** Messages emitted and text left in the buffer, by segments of the input. */
  function Outcome(segs: seq<string>, max: nat): (seq<string>, string)
    requires max > 0 && segs != []
  {
    var n := |segs| - 1;
    (AllTerminated(segs[..n], max) + Blocks(segs[n], max).0, Blocks(segs[n], max).1)
  }

  /** The non-empty ones of these segments. */
  function TextLines(segs: seq<string>): seq<string> {
    if segs == [] then [] else TextLines(segs[..|segs| - 1]) + NonEmpty(segs[|segs| - 1])
  }

  // ----- One character at a time -----

  /** The body of the byte loop. */
  function StepLine(st: (seq<string>, string), c: char, max: nat): (seq<string>, string) {
    if c == '\n' || |st.1| == max then (st.0 + NonEmpty(st.1), "") else (st.0, st.1 + [c])
  }

  /** The byte loop over a whole input: messages emitted and text left in the buffer. */
  function Assembled(s: string, max: nat): (seq<string>, string) {
    if s == "" then ([], "") else StepLine(Assembled(s[..|s| - 1], max), s[|s| - 1], max)
  }

  lemma Assoc(a: seq<string>, b: seq<string>, c: seq<string>)
    ensures (a + b) + c == a + (b + c)
  {
  }

  lemma {:induction false} BlocksSnoc(seg: string, c: char, max: nat)
    requires max > 0
    ensures var (blocks, rest) := Blocks(seg, max);
            Blocks(seg + [c], max) == if |rest| == max then (blocks + [rest], "") else (blocks, rest + [c])
    decreases |seg|
  {
    var more := seg + [c];
    if |seg| == max {
      assert more[..max] == seg && more[max + 1..] == "";
      assert [seg] + [] == [] + [seg];
    } else if |seg| > max {
      var later := seg[max + 1..];
      assert more[..max] == seg[..max] && more[max + 1..] == later + [c];
      BlocksSnoc(later, c, max);
      Assoc([seg[..max]], Blocks(later, max).0, [Blocks(later, max).1]);
    }
  }

  lemma OutcomeNewline(segs: seq<string>, max: nat)
    requires max > 0 && segs != []
    ensures Outcome(segs + [""], max) == (Outcome(segs, max).0 + NonEmpty(Outcome(segs, max).1), "")
  {
    var n := |segs| - 1;
    Assoc(AllTerminated(segs[..n], max), Blocks(segs[n], max).0, NonEmpty(Blocks(segs[n], max).1));
    assert (segs + [""])[..n + 1] == segs;
    assert AllTerminated(segs, max) + [] == AllTerminated(segs, max);
  }

  lemma OutcomeChar(segs: seq<string>, c: char, max: nat)
    requires max > 0 && segs != [] && c != '\n'
    ensures var n := |segs| - 1;
            Outcome(segs[n := segs[n] + [c]], max) == StepLine(Outcome(segs, max), c, max)
  {
    var n := |segs| - 1;
    assert segs[n := segs[n] + [c]][..n] == segs[..n];
    Assoc(AllTerminated(segs[..n], max), Blocks(segs[n], max).0, [Blocks(segs[n], max).1]);
    BlocksSnoc(segs[n], c, max);
  }

  lemma AssembledSnoc(s: string, c: char, max: nat)
    ensures Assembled(s + [c], max) == StepLine(Assembled(s, max), c, max)
  {
    assert (s + [c])[..|s|] == s;
  }

  /** The byte loop computes what the segments of the input say. */
  lemma {:induction false} AssembledIsOutcome(s: string, max: nat)
    requires max > 0
    ensures Assembled(s, max) == Outcome(Segments(s), max)
  {
    if s == "" {
      assert [""][..0] == [] && AllTerminated([], max) + [] == [];
    } else {
      var before, c := s[..|s| - 1], s[|s| - 1];
      assert s == before + [c];
      AssembledIsOutcome(before, max);
      if c == '\n' {
        OutcomeNewline(Segments(before), max);
      } else {
        OutcomeChar(Segments(before), c, max);
      }
    }
  }

  lemma {:induction false} TerminatedAreShort(segs: seq<string>, max: nat)
    requires max > 0
    ensures forall e :: e in AllTerminated(segs, max) ==> 0 < |e| <= max
  {
    if segs != [] {
      TerminatedAreShort(segs[..|segs| - 1], max);
    }
  }

  /** No message is empty or longer than the buffer allows. */
  lemma {:induction false} MessagesFit(s: string, max: nat)
    requires max > 0
    ensures forall e :: e in Assembled(s, max).0 ==> 0 < |e| <= max
    ensures |Assembled(s, max).1| <= max
  {
    AssembledIsOutcome(s, max);
    TerminatedAreShort(Segments(s)[..|Segments(s)| - 1], max);
  }

  lemma {:induction false} ShortSegments(segs: seq<string>, max: nat)
    requires max > 0 && forall i :: 0 <= i < |segs| ==> |segs[i]| <= max
    ensures AllTerminated(segs, max) == TextLines(segs)
  {
    if segs != [] {
      ShortSegments(segs[..|segs| - 1], max);
    }
  }

  lemma {:induction false} LongLineShows(segs: seq<string>, i: nat)
    requires i < |segs| && segs[i] != ""
    ensures segs[i] in TextLines(segs)
  {
    if i < |segs| - 1 {
      LongLineShows(segs[..|segs| - 1], i);
    }
  }

  predicate AllFit(segs: seq<string>, max: nat) {
    forall i :: 0 <= i < |segs| ==> |segs[i]| <= max
  }

  lemma RestFits(segs: seq<string>, max: nat)
    requires max > 0 && segs != []
    requires forall i :: 0 <= i < |segs| - 1 ==> |segs[i]| <= max
    ensures Outcome(segs, max).0 == TextLines(segs[..|segs| - 1]) <==> |segs[|segs| - 1]| <= max
  {
    var n := |segs| - 1;
    ShortSegments(segs[..n], max);
    var lines, blocks := TextLines(segs[..n]), Blocks(segs[n], max).0;
    assert lines + blocks == lines <==> blocks == [];
  }

  lemma OutcomeLossless(segs: seq<string>, max: nat)
    requires max > 0 && segs != []
    ensures Outcome(segs, max).0 == TextLines(segs[..|segs| - 1]) <==> AllFit(segs, max)
  {
    var n := |segs| - 1;
    if i :| 0 <= i < n && |segs[i]| > max {
      LongLineShows(segs[..n], i);
      TerminatedAreShort(segs[..n], max);
    } else {
      RestFits(segs, max);
    }
  }

  /**
   Exactly the non-empty newline-terminated lines come out if and only if no segment of the
   input, the unterminated rest included, is longer than the buffer; a longer one loses a
   character at every cut.
   */
  lemma LosslessIff(s: string, max: nat)
    requires max > 0
    ensures var segs := Segments(s);
            Assembled(s, max).0 == TextLines(segs[..|segs| - 1]) <==> AllFit(segs, max)
  {
    AssembledIsOutcome(s, max);
    OutcomeLossless(Segments(s), max);
  }

  // ----- The reader thread -----

  function Texts(lines: seq<string>): (r: seq<string>)
    ensures |r| == |lines| && forall i :: 0 <= i < |r| ==> r[i] == CStr(lines[i])
  {
    seq(|lines|, i requires 0 <= i < |lines| => CStr(lines[i]))
  }

  /** No terminated line holds a NUL. */
  predicate NulFree(segs: seq<string>) {
    forall i :: 0 <= i < |segs| - 1 ==> '\0' !in segs[i]
  }

  lemma {:induction false} TextLineIsSegment(segs: seq<string>, e: string)
    requires e in TextLines(segs)
    ensures e in segs
  {
    var n := |segs| - 1;
    if e in TextLines(segs[..n]) {
      TextLineIsSegment(segs[..n], e);
    } else {
      assert e == segs[n];
    }
  }

  lemma TextsUnchanged(lines: seq<string>)
    ensures Texts(lines) == lines <==> forall i :: 0 <= i < |lines| ==> '\0' !in lines[i]
  {
    if Texts(lines) == lines {
      assert forall i :: 0 <= i < |lines| ==> Texts(lines)[i] == CStr(lines[i]);
    }
  }

  /** A fitting input is delivered unchanged exactly if its terminated lines are free of NUL. */
  lemma FittingTexts(segs: seq<string>)
    requires segs != []
    ensures var lines := TextLines(segs[..|segs| - 1]);
            Texts(lines) == lines <==> NulFree(segs)
  {
    var n := |segs| - 1;
    var lines := TextLines(segs[..n]);
    TextsUnchanged(lines);
    if NulFree(segs) {
      forall i | 0 <= i < |lines|
        ensures '\0' !in lines[i]
      {
        TextLineIsSegment(segs[..n], lines[i]);
      }
    } else {
      var i :| 0 <= i < n && '\0' in segs[i];
      LongLineShows(segs[..n], i);
    }
  }

  lemma LongLineLost(segs: seq<string>, max: nat, i: nat)
    requires max > 0 && i < |segs| - 1 && |segs[i]| > max
    ensures Texts(Outcome(segs, max).0) != TextLines(segs[..|segs| - 1])
  {
    var n := |segs| - 1;
    var out, lines := Outcome(segs, max).0, TextLines(segs[..n]);
    TerminatedAreShort(segs[..n], max);
    assert forall e :: e in out ==> |e| <= max;
    LongLineShows(segs[..n], i);
    assert forall k :: 0 <= k < |out| ==> |Texts(out)[k]| <= |out[k]| <= max;
    assert segs[i] !in Texts(out) && segs[i] in lines;
  }

  lemma TooLongLost(segs: seq<string>, max: nat)
    requires max > 0 && segs != [] && !AllFit(segs, max)
    ensures Texts(Outcome(segs, max).0) != TextLines(segs[..|segs| - 1])
  {
    var n := |segs| - 1;
    if i :| 0 <= i < n && |segs[i]| > max {
      LongLineLost(segs, max, i);
    } else {
      ShortSegments(segs[..n], max);
      assert |Texts(Outcome(segs, max).0)| > |TextLines(segs[..n])|;
    }
  }

  lemma OutcomeDelivered(segs: seq<string>, max: nat)
    requires max > 0 && segs != []
    ensures Texts(Outcome(segs, max).0) == TextLines(segs[..|segs| - 1]) <==> AllFit(segs, max) && NulFree(segs)
  {
    if AllFit(segs, max) {
      OutcomeLossless(segs, max);
      FittingTexts(segs);
    } else {
      TooLongLost(segs, max);
    }
  }

  /** The non-empty terminated lines of an input. */
  function WholeLines(s: string): seq<string> {
    TextLines(Segments(s)[..|Segments(s)| - 1])
  }

  /** No segment is too long and no terminated one holds a NUL. */
  predicate Deliverable(s: string, max: nat) {
    AllFit(Segments(s), max) && NulFree(Segments(s))
  }

  /** End to end: the ring receives exactly the non-empty terminated lines if and only if they are deliverable. */
  lemma DeliveredIff(s: string, max: nat)
    requires max > 0
    ensures Texts(Assembled(s, max).0) == WholeLines(s) <==> Deliverable(s, max)
  {
    AssembledIsOutcome(s, max);
    OutcomeDelivered(Segments(s), max);
  }

  function Concat(chunks: seq<string>): string {
    if chunks == [] then "" else Concat(chunks[..|chunks| - 1]) + chunks[|chunks| - 1]
  }

  class Reader {
    const line: array<char>
    var lpos: nat

    ghost var fed: string              // every character read so far
    ghost var emitted: seq<string>     // every line handed on

    ghost predicate Valid()
      reads this, line
    {
      && line.Length >= 2 && lpos < line.Length
      && (emitted, line[..lpos]) == Assembled(fed, line.Length - 1)
    }

    constructor (size: nat)
      requires size >= 2
      ensures Valid() && line.Length == size && fed == "" && emitted == [] && fresh(line)
    {
      line := new char[size];
      lpos := 0;
      fed, emitted := "", [];
      new;
      assert line[..0] == "";
    }

    /** One character of the read loop; a finished line is returned to be queued. */
    method Accept(c: char) returns (done: seq<string>)
      requires Valid()
      modifies this, line
      ensures Valid() && fed == old(fed) + [c]
      ensures |done| <= 1 && emitted == old(emitted) + done
    {
      AssembledSnoc(fed, c, line.Length - 1);
      done := [];
      if c == '\n' || lpos == line.Length - 1 {
        line[lpos] := '\0';
        assert line[..lpos] == old(line[..lpos]);
        if lpos > 0 {
          done := [line[..lpos]];
        }
        lpos := 0;
        assert line[..lpos] == "";
      } else {
        line[lpos] := c;
        lpos := lpos + 1;
        assert line[..lpos] == old(line[..lpos]) + [c];
      }
      assert emitted + [] == emitted;
      emitted := emitted + done;
      fed := fed + [c];
    }
  }

  /** Queues a finished line; the ring keeps its text up to the first NUL. */
  method HandleLine(ring: Ring.Fifo, ghost before: seq<string>, done: seq<string>)
    requires ring.Valid() && |done| <= 1 && ring.pushed == Texts(before)
    modifies ring, ring.buf
    ensures ring.Valid() && ring.pushed == Texts(before + done)
  {
    if done != [] {
      var kept := ring.Push(CStr(done[0]));
      assert done == [done[0]];
      assert Texts(before + done) == Texts(before) + [CStr(done[0])];
    } else {
      assert before + done == before;
    }
  }

  /** One read from the input. */
  method Feed(r: Reader, ring: Ring.Fifo, buf: string)
    requires r.Valid() && ring.Valid() && ring.pushed == Texts(r.emitted)
    modifies r, r.line, ring, ring.buf
    ensures r.Valid() && ring.Valid() && ring.pushed == Texts(r.emitted)
    ensures r.fed == old(r.fed) + buf
  {
    var i := 0;
    while i < |buf|
      invariant 0 <= i <= |buf|
      invariant r.Valid() && ring.Valid() && ring.pushed == Texts(r.emitted)
      invariant r.fed == old(r.fed) + buf[..i]
    {
      ghost var before := r.emitted;
      var done := r.Accept(buf[i]);
      HandleLine(ring, before, done);
      i := i + 1;
      assert buf[..i] == buf[..i - 1] + [buf[i - 1]];
    }
    assert buf[..i] == buf;
  }

  /** Any way of splitting an input over reads gives the same messages and the same rest. */
  method ReadAll(r: Reader, ring: Ring.Fifo, chunks: seq<string>)
    requires r.Valid() && r.fed == "" && r.emitted == [] && ring.Valid() && ring.pushed == []
    modifies r, r.line, ring, ring.buf
    ensures r.Valid() && (r.emitted, r.line[..r.lpos]) == Assembled(Concat(chunks), r.line.Length - 1)
    ensures ring.Valid() && ring.pushed == Texts(r.emitted)
    ensures ring.pushed == WholeLines(Concat(chunks)) <==> Deliverable(Concat(chunks), r.line.Length - 1)
  {
    var i := 0;
    while i < |chunks|
      invariant 0 <= i <= |chunks|
      invariant r.Valid() && ring.Valid() && ring.pushed == Texts(r.emitted)
      invariant r.fed == Concat(chunks[..i])
    {
      Feed(r, ring, chunks[i]);
      i := i + 1;
      assert chunks[..i][..i - 1] == chunks[..i - 1];
    }
    assert chunks[..i] == chunks;
    DeliveredIff(Concat(chunks), r.line.Length - 1);
  }
}
