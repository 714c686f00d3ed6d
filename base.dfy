/** Values shared by the server routes and the web client: optional values,
    files as they travel from the browser to the media host, and the ASCII
    text helpers that stand for JavaScript's `toUpperCase` and `trim`. */
module Base {

  datatype Option<T> = None | Some(value: T)

  newtype byte = x: int | 0 <= x < 256

  /** A file chosen in the browser or received by the upload middleware. */
  datatype File = File(name: string, content: seq<byte>)

  /** A URL returned by the media host (`secure_url`). */
  type Url = string

  predicate IsLowerAscii(c: char) { 'a' <= c <= 'z' }

  /** `toUpperCase` on one character, restricted to ASCII letters. */
  function UpperAscii(c: char): (u: char)
    ensures IsLowerAscii(c) ==> 'A' <= u <= 'Z' && u as int - 'A' as int == c as int - 'a' as int
    ensures !IsLowerAscii(c) ==> u == c
  {
    if IsLowerAscii(c) then (c as int - 32) as char else c
  }

  /** `s.charAt(0).toUpperCase()`: the first character upper-cased, or the
      empty string for an empty `s`. */
  function FirstLetterUpper(s: string): (r: string)
    ensures |r| <= 1
    ensures |r| == 1 <==> |s| > 0
    ensures |s| > 0 ==> r[0] == UpperAscii(s[0])
  {
    if |s| == 0 then "" else [UpperAscii(s[0])]
  }

  /** The ASCII characters that JavaScript's `trim` removes. */
  predicate IsSpace(c: char) {
    c == ' ' || c == '\t' || c == '\n' || c == '\r' || c == '\U{0B}' || c == '\U{0C}'
  }
}
