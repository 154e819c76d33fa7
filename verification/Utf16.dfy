/** The UTF-16LE form of a string. */
module Utf16 {
  import opened Wrappers
  import opened Bytes

  function EncodeChar(c: char): Bytes {
    var u := c as int;
    if u < 0x1_0000 then Le16(u)
    else Le16(0xD800 + (u - 0x1_0000) / 0x400) + Le16(0xDC00 + (u - 0x1_0000) % 0x400)
  }

  function Encode(s: string): (b: Bytes)
    ensures |b| % 2 == 0 && |b| >= 2 * |s|
  {
    if s == "" then [] else EncodeChar(s[0]) + Encode(s[1..])
  }

  function Decode(b: Bytes): Option<string> {
    if b == [] then Some("")
    else if |b| < 2 then None
    else
      var u := Get16(b, 0);
      if u < 0xD800 || u >= 0xE000 then Prepend(u as char, Decode(b[2..]))
      else if u >= 0xDC00 || |b| < 4 then None
      else
        var v := Get16(b, 2);
        if v < 0xDC00 || v >= 0xE000 then None
        else Prepend((0x1_0000 + (u - 0xD800) * 0x400 + (v - 0xDC00)) as char, Decode(b[4..]))
  }

  function Prepend(c: char, rest: Option<string>): Option<string> {
    match rest
    case None => None
    case Some(s) => Some([c] + s)
  }

  lemma DecodeFirst(c: char, rest: Bytes)
    ensures Decode(EncodeChar(c) + rest) == Prepend(c, Decode(rest))
  {
    var u := c as int;
    var b := EncodeChar(c) + rest;
    if u < 0x1_0000 {
      Get16Of(b, 0, u);
      assert b[2..] == rest;
    } else {
      Get16Of(b, 0, 0xD800 + (u - 0x1_0000) / 0x400);
      Get16Of(b, 2, 0xDC00 + (u - 0x1_0000) % 0x400);
      assert b[4..] == rest;
    }
  }

  lemma {:induction false} RoundTrip(s: string)
    ensures Decode(Encode(s)) == Some(s)
  {
    if s != "" {
      DecodeFirst(s[0], Encode(s[1..]));
      RoundTrip(s[1..]);
      assert [s[0]] + s[1..] == s;
    }
  }
}
