/** Values shared by the routing decision and the request handler:
    bytes, optional values and the HTTP response a request produces. */
module Http {

  /** One octet, as in Go's `byte`. */
  newtype byte = x: int | 0 <= x < 256

  datatype Option<+T> = None | Some(value: T) {
    function GetOr(default: T): T {
      match this
      case Some(v) => v
      case None => default
    }
  }

  /** One header line as added by `Header().Add(name, value)`. */
  datatype Header = Header(name: string, value: string)

  /** What the handler writes: the status passed to `WriteHeader`, the headers
      in the order they were added, and the bytes passed to `Write`. */
  datatype Response = Response(status: int, headers: seq<Header>, body: seq<byte>)

  predicate IsAscii(s: string) {
    forall i :: 0 <= i < |s| ==> s[i] as int < 128
  }

  /** Go's `[]byte(s)` for a string literal: its UTF-8 encoding, which for
      ASCII text is one byte per character with the character's code. */
  function AsciiBytes(s: string): (r: seq<byte>)
    requires IsAscii(s)
    ensures |r| == |s|
    ensures forall i :: 0 <= i < |s| ==> r[i] as int == s[i] as int
  {
    if s == [] then [] else [s[0] as int as byte] + AsciiBytes(s[1..])
  }
}
