/** The APRS status report built from each received line: the status Data Type
    Identifier '>', the line, and a fixed station signature, cut to the 256-byte
    `snprintf` buffer (255 characters and the terminator). */
module StatusPayload {
  import opened Text

  /** APRS Data Type Identifier of a status report. */
  const STATUS_DTI: Byte := '>'

  /** The text appended after the line. */
  const SIGNATURE: seq<Byte> := " | Somaiya OrbitRadio-5 73"

  /** Size of the `payload` buffer, terminator included. */
  const PAYLOAD_SIZE: nat := 256

  /** The longest line whose report still ends with the whole signature. */
  const MAX_UNCUT_LINE: nat := PAYLOAD_SIZE - 1 - 1 - |SIGNATURE|

  /** The report `snprintf(payload, 256, ">%s | Somaiya OrbitRadio-5 73", line)` leaves in
      the buffer. `%s` stops at the first NUL of the line. */
  function Format(line: seq<Byte>): (p: seq<Byte>)
    ensures |p| <= PAYLOAD_SIZE - 1
    ensures |p| >= 1 && p[0] == STATUS_DTI
    ensures NUL !in p
    ensures p <= [STATUS_DTI] + CStr(line) + SIGNATURE
    ensures |CStr(line)| <= MAX_UNCUT_LINE <==> p == [STATUS_DTI] + CStr(line) + SIGNATURE
    ensures |CStr(line)| > MAX_UNCUT_LINE ==> |p| == PAYLOAD_SIZE - 1
  {
    var full := [STATUS_DTI] + CStr(line) + SIGNATURE;
    assert NUL !in SIGNATURE;
    if |full| <= PAYLOAD_SIZE - 1 then full else full[..PAYLOAD_SIZE - 1]
  }

  /** How a receiver reads such a report back: strip the identifier and the signature. */
  function ParseStatus(p: seq<Byte>): (r: Option<seq<Byte>>)
    ensures r.Some? ==> [STATUS_DTI] + r.value + SIGNATURE == p
  {
    if |p| >= 1 + |SIGNATURE| && p[0] == STATUS_DTI && p[|p| - |SIGNATURE|..] == SIGNATURE then
      var text := p[1..|p| - |SIGNATURE|];
      assert [STATUS_DTI] + text + SIGNATURE == p;
      Some(text)
    else
      None
  }

  /** A line without NUL that leaves room for the signature is recovered exactly. */
  lemma FormatRoundTrip(line: seq<Byte>)
    requires NUL !in line
    requires |line| <= MAX_UNCUT_LINE
    ensures ParseStatus(Format(line)) == Some(line)
  {
    var p := Format(line);
    assert p == [STATUS_DTI] + line + SIGNATURE;
    assert p[|p| - |SIGNATURE|..] == SIGNATURE;
    assert p[1..|p| - |SIGNATURE|] == line;
  }

  /** Only the line up to its first NUL reaches the report. */
  lemma FormatReadsCString(line: seq<Byte>)
    ensures Format(line) == Format(CStr(line))
  {
    assert CStr(CStr(line)) == CStr(line);
  }
}
