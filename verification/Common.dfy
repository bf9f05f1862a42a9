/** Types shared by every component: optional values, machine-width integers and
    the big-endian encodings that the wire formats use. */
module Common {

  datatype Option<+T> = None | Some(value: T)

  datatype Result<+T, +E> = Ok(value: T) | Err(error: E)

  type byte = x: int | 0 <= x < 0x100
  type u16 = x: int | 0 <= x < 0x1_0000
  type u32 = x: int | 0 <= x < 0x1_0000_0000

  function Wrap16(x: int): u16 {
    x % 0x1_0000
  }

  function Put16(x: u16): (r: seq<byte>)
    ensures |r| == 2
  {
    [x / 0x100, x % 0x100]
  }

  function Get16(b: seq<byte>): (r: u16)
    requires |b| == 2
  {
    (b[0] as int) * 0x100 + b[1] as int
  }

  function Put32(x: u32): (r: seq<byte>)
    ensures |r| == 4
  {
    Put16(x / 0x1_0000) + Put16(x % 0x1_0000)
  }

  function Get32(b: seq<byte>): (r: u32)
    requires |b| == 4
  {
    (Get16(b[..2]) as int) * 0x1_0000 + Get16(b[2..]) as int
  }

  lemma GetPut16(x: u16)
    ensures Get16(Put16(x)) == x
  {
  }

  lemma PutGet16(b: seq<byte>)
    requires |b| == 2
    ensures Put16(Get16(b)) == b
  {
  }

  lemma GetPut32(x: u32)
    ensures Get32(Put32(x)) == x
  {
    var b := Put32(x);
    assert b[..2] == Put16(x / 0x1_0000);
    assert b[2..] == Put16(x % 0x1_0000);
    GetPut16(x / 0x1_0000);
    GetPut16(x % 0x1_0000);
  }

  lemma PutGet32(b: seq<byte>)
    requires |b| == 4
    ensures Put32(Get32(b)) == b
  {
    PutGet16(b[..2]);
    PutGet16(b[2..]);
    assert b == b[..2] + b[2..];
  }

  lemma PutInjective32(x: u32, y: u32)
    requires Put32(x) == Put32(y)
    ensures x == y
  {
    GetPut32(x);
    GetPut32(y);
  }

  /** The bytes from position i on hold x in network order, the most significant first. */
  predicate Holds16(b: seq<byte>, i: nat, x: u16) {
    i + 2 <= |b| && b[i] as int * 0x100 + b[i + 1] as int == x as int
  }

  predicate Holds32(b: seq<byte>, i: nat, x: u32) {
    && i + 4 <= |b|
    && b[i] as int * 0x100_0000 + b[i + 1] as int * 0x1_0000 + b[i + 2] as int * 0x100 + b[i + 3] as int == x as int
  }

  lemma PutHolds16(b: seq<byte>, i: nat, x: u16)
    requires i + 2 <= |b| && b[i..i + 2] == Put16(x)
    ensures Holds16(b, i, x)
  {
    assert b[i] == b[i..i + 2][0] && b[i + 1] == b[i..i + 2][1];
  }

  lemma PutHolds32(b: seq<byte>, i: nat, x: u32)
    requires i + 4 <= |b| && b[i..i + 4] == Put32(x)
    ensures Holds32(b, i, x)
  {
    var w := b[i..i + 4];
    assert b[i] == w[0] && b[i + 1] == w[1] && b[i + 2] == w[2] && b[i + 3] == w[3];
  }

  predicate Distinct<T(==)>(s: seq<T>) {
    forall i, j :: 0 <= i < j < |s| ==> s[i] != s[j]
  }
}
