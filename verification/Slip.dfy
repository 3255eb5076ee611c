/** The byte stuffing of the PROTOCOL section of RFC 1055, as used on the Nordic serial link. */
module Slip {
  import opened Bytes

  const END: Byte := 0xc0
  const ESCAPE: Byte := 0xdb
  const ESCAPED_END: Byte := 0xdc
  const ESCAPED_ESCAPE: Byte := 0xdd

  function EscapeByte(b: Byte): seq<Byte> {
    if b == END then [ESCAPE, ESCAPED_END]
    else if b == ESCAPE then [ESCAPE, ESCAPED_ESCAPE]
    else [b]
  }

  function Escape(s: seq<Byte>): (r: seq<Byte>)
    ensures END !in r
  {
    if s == [] then [] else EscapeByte(s[0]) + Escape(s[1..])
  }

  /** The bytes between two END markers: complete, cut inside an escape pair, or not SLIP at all. */
  datatype Body = Whole(bytes: seq<Byte>) | Dangling(bytes: seq<Byte>) | Invalid(bytes: seq<Byte>, culprit: Byte)

  function Prepend(b: Byte, body: Body): Body {
    match body
    case Whole(bytes) => Whole([b] + bytes)
    case Dangling(bytes) => Dangling([b] + bytes)
    case Invalid(bytes, culprit) => Invalid([b] + bytes, culprit)
  }

  /** RFC 1055's receiver, reading the stuffed bytes left to right, a pair at a time. */
  function Unescape(s: seq<Byte>): Body
  {
    if s == [] then Whole([])
    else if s[0] != 0xdb then Prepend(s[0], Unescape(s[1..]))
    else if |s| == 1 then Dangling([])
    else if s[1] == 0xdc then Prepend(0xc0, Unescape(s[2..]))
    else if s[1] == 0xdd then Prepend(0xdb, Unescape(s[2..]))
    else Invalid([], s[1])
  }

  /** Unstuffing undoes stuffing, for every byte string. */
  lemma {:induction false} UnescapeInvertsEscape(s: seq<Byte>)
    ensures Unescape(Escape(s)) == Whole(s)
  {
    if s != [] {
      UnescapeInvertsEscape(s[1..]);
      var head, tail := EscapeByte(s[0]), Escape(s[1..]);
      assert (head + tail)[|head|..] == tail;
      assert [s[0]] + s[1..] == s;
    }
  }

  /** What one more byte does to a body. */
  function Extended(body: Body, b: Byte): Body {
    match body
    case Whole(bytes) => if b == ESCAPE then Dangling(bytes) else Whole(bytes + [b])
    case Dangling(bytes) =>
      if b == ESCAPED_END then Whole(bytes + [END])
      else if b == ESCAPED_ESCAPE then Whole(bytes + [ESCAPE])
      else Invalid(bytes, b)
    case Invalid(_, _) => body
  }

  /** The pairwise receiver can be run a byte at a time. */
  lemma {:induction false} UnescapeExtends(s: seq<Byte>, b: Byte)
    ensures Unescape(s + [b]) == Extended(Unescape(s), b)
  {
    if s == [] {
      assert s + [b] == [b] && [b][1..] == [] && [b] + [] == [b];
    } else if s[0] != ESCAPE {
      assert (s + [b])[1..] == s[1..] + [b];
      UnescapeExtends(s[1..], b);
      PrependExtended(s[0], Unescape(s[1..]), b);
    } else if |s| == 1 {
      assert (s + [b])[2..] == [];
    } else if s[1] == ESCAPED_END || s[1] == ESCAPED_ESCAPE {
      assert (s + [b])[2..] == s[2..] + [b];
      UnescapeExtends(s[2..], b);
      PrependExtended(END, Unescape(s[2..]), b);
      PrependExtended(ESCAPE, Unescape(s[2..]), b);
    }
  }

  lemma PrependExtended(p: Byte, body: Body, b: Byte)
    ensures Extended(Prepend(p, body), b) == Prepend(p, Extended(body, b))
  {
    assert [p] + (body.bytes + [b]) == [p] + body.bytes + [b];
    assert [p] + (body.bytes + [END]) == [p] + body.bytes + [END];
    assert [p] + (body.bytes + [ESCAPE]) == [p] + body.bytes + [ESCAPE];
  }
}
