/**
 * UTF-8 for strings, as `String.getBytes("UTF-8")` produces it for the POST
 * body of a source.
 */
module Utf8 {
  import opened Optional
  import opened Utf8Char

  /** `s.getBytes("UTF-8")`. */
  function Encode(s: string): (bs: seq<byte>)
    ensures |s| <= |bs| <= 4 * |s|
  {
    if s == [] then [] else EncodeChar(s[0]) + Encode(s[1..])
  }

  /** A byte sequence is empty exactly when the string it encodes is. */
  lemma EncodeEmptyIff(s: string)
    ensures Encode(s) == [] <==> s == []
  {
  }

  /** On ASCII text, UTF-8 is the sequence of character codes. */
  lemma {:induction false} EncodeAscii(s: string)
    requires forall i :: 0 <= i < |s| ==> s[i] < '\U{0080}'
    ensures Encode(s) == seq(|s|, i requires 0 <= i < |s| => s[i] as int)
  {
    if s != [] {
      EncodeAscii(s[1..]);
    }
  }

  /** Reads a whole byte sequence as UTF-8 text; `None` when some character is malformed. */
  function Decode(bs: seq<byte>): Option<string>
    decreases |bs|
  {
    if bs == [] then Some([])
    else
      match DecodeChar(bs)
      case None => None
      case Some((c, k)) =>
        match Decode(bs[k..])
        case None => None
        case Some(rest) => Some([c] + rest)
  }

  /** Decoding undoes `getBytes("UTF-8")`. */
  lemma {:induction false} DecodeEncode(s: string)
    ensures Decode(Encode(s)) == Some(s)
  {
    if s != [] {
      var e := EncodeChar(s[0]);
      DecodeEncodeChar(s[0], Encode(s[1..]));
      assert (e + Encode(s[1..]))[|e|..] == Encode(s[1..]);
      DecodeEncode(s[1..]);
      assert [s[0]] + s[1..] == s;
    }
  }
}
