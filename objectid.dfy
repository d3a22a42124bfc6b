/**
 * MongoDB document identifiers. An ObjectId is a 12-byte value, written as
 * 24 hexadecimal digits; a string id given to a query is cast to an ObjectId,
 * and the cast fails for a string that is not 24 hexadecimal digits.
 */
module ObjectIds {
  import opened Common


  /** The length of an ObjectId's string form, the length the services check. */
  const ObjectIdLength: nat := 24

  function Pow16(k: nat): (p: nat)
    ensures p >= 1
  {
    if k == 0 then 1 else 16 * Pow16(k - 1)
  }

  /** How many distinct ObjectIds there are: 16^24, that is 2^96. */
  const IdSpace: nat := 0x1_0000_0000_0000_0000_0000_0000

  lemma IdSpaceIsPow16()
    ensures IdSpace == Pow16(ObjectIdLength)
  {
    Pow16Add(4, 4);
    Pow16Add(8, 8);
    Pow16Add(16, 8);
    assert Pow16(4) == 0x1_0000;
  }

  lemma {:induction false} Pow16Add(a: nat, b: nat)
    ensures Pow16(a + b) == Pow16(a) * Pow16(b)
  {
    if a > 0 {
      Pow16Add(a - 1, b);
    }
  }

  /** The digits the cast accepts: either case. */
  predicate IsHexDigit(c: char) {
    '0' <= c <= '9' || 'a' <= c <= 'f' || 'A' <= c <= 'F'
  }

  predicate IsHexString(s: string) {
    forall i :: 0 <= i < |s| ==> IsHexDigit(s[i])
  }

  function HexChar(d: nat): (c: char)
    requires d < 16
    ensures IsHexDigit(c)
  {
    if d < 10 then ('0' as int + d) as char else ('a' as int + d - 10) as char
  }

  function HexCharValue(c: char): (d: nat)
    requires IsHexDigit(c)
    ensures d < 16
  {
    if c <= '9' then c as int - '0' as int
    else if c <= 'F' then c as int - 'A' as int + 10
    else c as int - 'a' as int + 10
  }

  /** The last `width` hexadecimal digits of `n`, most significant first. */
  function Hex(n: nat, width: nat): (r: string)
    ensures |r| == width
  {
    if width == 0 then [] else Hex(n / 16, width - 1) + [HexChar(n % 16)]
  }

  lemma {:induction false} HexIsHexString(n: nat, width: nat)
    ensures IsHexString(Hex(n, width))
  {
    if width > 0 {
      HexIsHexString(n / 16, width - 1);
    }
  }

  /** The number a string of hexadecimal digits denotes. */
  function HexValue(s: string): nat
    requires IsHexString(s)
  {
    if s == [] then 0 else HexValue(s[..|s| - 1]) * 16 + HexCharValue(s[|s| - 1])
  }

  /** Reading back `width` digits of a number that fits gives the number. */
  lemma {:induction false} HexRoundTrip(n: nat, width: nat)
    requires n < Pow16(width)
    ensures IsHexString(Hex(n, width)) && HexValue(Hex(n, width)) == n
  {
    HexIsHexString(n, width);
    if width > 0 {
      var q, d := n / 16, n % 16;
      assert n == q * 16 + d;
      assert q < Pow16(width - 1);
      HexRoundTrip(q, width - 1);
      var h := Hex(n, width);
      assert h[..|h| - 1] == Hex(q, width - 1);
      assert HexCharValue(HexChar(d)) == d;
    }
  }

  /** An ObjectId: a number below 2^96. */
  datatype ObjectId = ObjectId(value: nat)

  predicate WellFormedId(o: ObjectId) {
    o.value < IdSpace
  }

  /** `ObjectId.prototype.toHexString`: 24 lower-case hexadecimal digits. */
  function ToHexString(o: ObjectId): (s: string)
    ensures |s| == ObjectIdLength
  {
    Hex(o.value, ObjectIdLength)
  }

  /** Casting a string to an ObjectId: 24 hexadecimal digits of either case
      give the ObjectId they denote; anything else fails. */
  function ParseObjectId(s: string): (r: Option<ObjectId>)
    ensures r.Some? <==> |s| == ObjectIdLength && IsHexString(s)
  {
    if |s| == ObjectIdLength && IsHexString(s) then Some(ObjectId(HexValue(s))) else None
  }

  /** Casting the string form of an ObjectId gives the ObjectId back. */
  lemma ParseToHexString(o: ObjectId)
    requires WellFormedId(o)
    ensures ParseObjectId(ToHexString(o)) == Some(o)
  {
    IdSpaceIsPow16();
    HexRoundTrip(o.value, ObjectIdLength);
  }

  /** Different ObjectIds have different string forms. */
  lemma ToHexStringInjective(a: ObjectId, b: ObjectId)
    requires WellFormedId(a) && WellFormedId(b)
    requires ToHexString(a) == ToHexString(b)
    ensures a == b
  {
    ParseToHexString(a);
    ParseToHexString(b);
  }
}
