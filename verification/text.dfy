/** Bytes as the firmware's character buffers hold them, and C-string reading. */
module Text {

  /** One byte of a `char` buffer: a character code below 256. */
  type Byte = c: char | c as int < 256 witness '\0'

  const NUL: Byte := '\0'
  const LF: Byte := '\n'
  const CR: Byte := '\r'

  datatype Option<T> = None | Some(value: T)

  /** The C string a buffer holds: its bytes up to, not including, the first NUL
      (all of it when there is none). This is what `%s` reads. */
  function CStr(s: seq<Byte>): (r: seq<Byte>)
    ensures NUL !in r
    ensures r <= s
    ensures |r| < |s| ==> s[|r|] == NUL
    ensures NUL !in s ==> r == s
  {
    if s == [] || s[0] == NUL then [] else [s[0]] + CStr(s[1..])
  }
}
