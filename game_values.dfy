/** Identities and property values shared by the attachments, the changes and the
    original-owner bookkeeping. */
module GameValues {
  import opened Text

  /** Units and attachments are referred to by identity. */
  type UnitId = nat
  type AttachmentId = nat

  /** A player, compared by name. */
  datatype PlayerId = PlayerId(name: string)

  /** PlayerID.NULL_PLAYERID, the stand-in for "no player". */
  const NULL_PLAYERID: PlayerId := PlayerId("Neutral")

  /** Java's 32-bit int. */
  type Int32 = x: int | -0x8000_0000 <= x < 0x8000_0000

  /** Two's-complement wrap-around of a Java int operation. */
  function ToInt32(x: int): (r: Int32)
    ensures -0x8000_0000 <= x < 0x8000_0000 ==> r == x
  {
    (x + 0x8000_0000) % 0x1_0000_0000 - 0x8000_0000
  }

  /** Adding less than 2^32 to a value moves its wrapped Java int. */
  lemma ToInt32Distinct(y: int, c: int)
    requires 0 < c < 0x1_0000_0000
    ensures ToInt32(y + c) != ToInt32(y)
  {
    var m := 0x1_0000_0000;
    var a := y + 0x8000_0000;
    var k := (a + c) / m - a / m;
    assert c == m * k + ((a + c) % m - a % m);
    if k == 0 {
      assert (a + c) % m - a % m == c;
    } else {
      assert m * k >= m;
    }
  }

  /** The value held by a property: a Java Object, possibly null. */
  datatype Value = Null | Str(s: string) | Int(i: Int32) | Bool(b: bool) | Owner(player: PlayerId)

  /** Object.toString of a non-null value. */
  function ValueToString(v: Value): string
    requires !v.Null?
  {
    match v
    case Str(s) => s
    case Int(i) => IntToString(i)
    case Bool(b) => if b then "true" else "false"
    case Owner(p) => p.name
  }
}
