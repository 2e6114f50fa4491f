/** The receive side of the main loop, end to end: bytes from the RS-485 link
    become lines, and each line becomes the status report handed to the AX.25
    frame assembler. Bytes that arrive while a report is being sent are never
    read, so the stream here is the bytes the loop actually receives. */
module Modem {
  import opened Text
  import opened LineAssembler
  import opened StatusPayload

  /** The status reports built from the lines a byte stream ends, in order,
      starting from a cleared buffer. Each is the formatted report of its line, so a
      '>'-led report of at most 255 bytes,
      and each whose line holds at most 228 bytes before its first NUL carries that
      whole line and the whole signature. */
  function StatusReports(n: nat, xs: seq<Byte>): (reports: seq<seq<Byte>>)
    requires ValidSize(n)
    ensures |reports| == |Run(n, Cleared(n), xs).lines|
    ensures forall i | 0 <= i < |reports| :: reports[i] == Format(Run(n, Cleared(n), xs).lines[i])
    ensures forall i | 0 <= i < |reports| :: 1 <= |reports[i]| < PAYLOAD_SIZE && reports[i][0] == STATUS_DTI
    ensures forall i | 0 <= i < |reports| && |CStr(Run(n, Cleared(n), xs).lines[i])| <= MAX_UNCUT_LINE ::
      ParseStatus(reports[i]) == Some(CStr(Run(n, Cleared(n), xs).lines[i]))
  {
    var lines := Run(n, Cleared(n), xs).lines;
    ReportsParseBack(lines);
    FormatAll(lines)
  }

  /** Each report whose line holds at most 228 bytes before its first NUL parses
      back to that part of the line. */
  lemma ReportsParseBack(lines: seq<seq<Byte>>)
    ensures forall i | 0 <= i < |lines| && |CStr(lines[i])| <= MAX_UNCUT_LINE ::
      ParseStatus(FormatAll(lines)[i]) == Some(CStr(lines[i]))
  {
    forall i | 0 <= i < |lines| && |CStr(lines[i])| <= MAX_UNCUT_LINE
      ensures ParseStatus(FormatAll(lines)[i]) == Some(CStr(lines[i]))
    {
      FormatReadsCString(lines[i]);
      FormatRoundTrip(CStr(lines[i]));
    }
  }

  /** `Format` applied to every line. */
  function FormatAll(lines: seq<seq<Byte>>): (reports: seq<seq<Byte>>)
    ensures |reports| == |lines|
    ensures forall i | 0 <= i < |lines| :: reports[i] == Format(lines[i])
  {
    if lines == [] then [] else [Format(lines[0])] + FormatAll(lines[1..])
  }

  /** When every line of a stream without NUL bytes fits the buffer and holds at
      most 228 bytes, each line leaves room for the signature, so a receiver
      recovers each line feed-terminated line, carriage returns removed, from its
      report, whatever the buffer size. */
  lemma ReportsCarryLines(n: nat, xs: seq<Byte>)
    requires ValidSize(n)
    requires NUL !in xs
    requires Fits(n, DropCR(xs)) && Fits(MAX_UNCUT_LINE + 2, DropCR(xs))
    ensures |StatusReports(n, xs)| == |Segments(DropCR(xs))| - 1
    ensures forall i | 0 <= i < |StatusReports(n, xs)| :: ParseStatus(StatusReports(n, xs)[i]) == Some(Segments(DropCR(xs))[i])
  {
    var o := Run(n, Cleared(n), xs);
    StreamLines(n, xs);
    var segs := Segments(DropCR(xs));
    assert o.lines + [o.final.Content()] == segs;
    forall i | 0 <= i < |o.lines|
      ensures ParseStatus(StatusReports(n, xs)[i]) == Some(segs[i])
    {
      assert o.lines[i] == segs[i];
      assert NUL !in o.lines[i] by {
        if NUL in o.lines[i] {
          SegmentBytes(DropCR(xs), i, NUL);
        }
      }
      FitsAll(MAX_UNCUT_LINE + 2, DropCR(xs), i);
      FormatRoundTrip(o.lines[i]);
    }
  }
}
