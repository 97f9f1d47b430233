/** The store's canonical identifier and its 24-character hexadecimal text:
    `ObjectIDFromHex` (the decoder the PATCH handler uses) and `Hex`, the
    driver's lower-case rendering. */
module ObjectIds {
  import opened Bson

  predicate IsHexDigit(c: char) {
    '0' <= c <= '9' || 'a' <= c <= 'f' || 'A' <= c <= 'F'
  }

  predicate AllHex(s: string) {
    forall i :: 0 <= i < |s| ==> IsHexDigit(s[i])
  }

  function HexDigitValue(c: char): (v: nat)
    requires IsHexDigit(c)
    ensures v < 16
  {
    if '0' <= c <= '9' then c as int - '0' as int
    else if 'a' <= c <= 'f' then c as int - 'a' as int + 10
    else c as int - 'A' as int + 10
  }

  /** The lower-case digit for a nibble. */
  function HexDigit(v: nat): (c: char)
    requires v < 16
    ensures IsHexDigit(c) && HexDigitValue(c) == v && !('A' <= c <= 'F')
  {
    if v < 10 then ('0' as int + v) as char else ('a' as int + v - 10) as char
  }

  /** A hex digit in the case `Hex` writes it. */
  function LowerHex(c: char): (d: char)
    requires IsHexDigit(c)
    ensures IsHexDigit(d) && HexDigitValue(d) == HexDigitValue(c)
  {
    if 'A' <= c <= 'F' then (c as int - 'A' as int + 'a' as int) as char else c
  }

  function LowerAll(s: string): (t: string)
    requires AllHex(s)
    ensures |t| == |s|
    ensures forall i :: 0 <= i < |s| ==> t[i] == LowerHex(s[i])
  {
    seq(|s|, i requires 0 <= i < |s| => LowerHex(s[i]))
  }

  /** hex.DecodeString on text of even length made of hex digits. */
  function DecodeHex(s: string): (bytes: seq<byte>)
    requires |s| % 2 == 0 && AllHex(s)
    ensures |bytes| == |s| / 2
  {
    if s == "" then []
    else [HexDigitValue(s[0]) * 16 + HexDigitValue(s[1])] + DecodeHex(s[2..])
  }

  /** hex.EncodeToString: two lower-case digits per byte, high nibble first. */
  function EncodeHex(bytes: seq<byte>): (s: string)
    ensures |s| == 2 * |bytes| && AllHex(s)
  {
    if bytes == [] then ""
    else [HexDigit(bytes[0] / 16), HexDigit(bytes[0] % 16)] + EncodeHex(bytes[1..])
  }

  /** primitive.ObjectIDFromHex: the text must be exactly 24 hex digits
      (either case); otherwise it is refused. */
  function ObjectIdFromHex(s: string): (r: Option<ObjectId>)
    ensures r.Some? <==> |s| == 24 && AllHex(s)
  {
    if |s| != 24 || !AllHex(s) then None
    else Some(DecodeHex(s))
  }

  /** ObjectID.Hex. */
  function Hex(id: ObjectId): (s: string)
    ensures |s| == 24 && AllHex(s)
  {
    EncodeHex(id)
  }

  lemma {:induction false} DecodeEncode(bytes: seq<byte>)
    ensures DecodeHex(EncodeHex(bytes)) == bytes
  {
    if bytes != [] {
      var s := EncodeHex(bytes);
      assert s[2..] == EncodeHex(bytes[1..]);
      DecodeEncode(bytes[1..]);
    }
  }

  lemma {:induction false} EncodeDecode(s: string)
    requires |s| % 2 == 0 && AllHex(s)
    ensures EncodeHex(DecodeHex(s)) == LowerAll(s)
  {
    if s != "" {
      var hi, lo := HexDigitValue(s[0]), HexDigitValue(s[1]);
      var b := DecodeHex(s);
      assert b == [hi * 16 + lo] + DecodeHex(s[2..]);
      Nibbles(hi, lo);
      HexDigitUnique(HexDigit(hi), LowerHex(s[0]));
      HexDigitUnique(HexDigit(lo), LowerHex(s[1]));
      EncodeDecode(s[2..]);
      assert LowerAll(s) == [LowerHex(s[0]), LowerHex(s[1])] + LowerAll(s[2..]);
    }
  }

  /** A byte built from two nibbles splits back into them. */
  lemma Nibbles(hi: nat, lo: nat)
    requires hi < 16 && lo < 16
    ensures (hi * 16 + lo) / 16 == hi && (hi * 16 + lo) % 16 == lo
  {
  }

  /** Two digits outside 'A'..'F' with the same value are the same digit. */
  lemma HexDigitUnique(c: char, d: char)
    requires IsHexDigit(c) && IsHexDigit(d)
    requires !('A' <= c <= 'F') && !('A' <= d <= 'F')
    requires HexDigitValue(c) == HexDigitValue(d)
    ensures c == d
  {
  }

  /** Every identifier decodes from its own rendering. */
  lemma ObjectIdFromHexOfHex(id: ObjectId)
    ensures ObjectIdFromHex(Hex(id)) == Some(id)
  {
    DecodeEncode(id);
  }

  /** An accepted text is the rendering of the identifier it decodes to, up
      to the case of its letters. */
  lemma HexOfObjectIdFromHex(s: string)
    requires ObjectIdFromHex(s).Some?
    ensures Hex(ObjectIdFromHex(s).value) == LowerAll(s)
  {
    EncodeDecode(s);
  }
}
