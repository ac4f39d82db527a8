/** The persistent settings as bytes: words in little-endian order inside a file or a memory image. */
module SettingsImage {

  type Byte = x: int | 0 <= x < 256
  type Bytes = seq<Byte>
  type Word = x: int | 0 <= x < 0x1_0000_0000

  function Digits(w: Word): Bytes {
    [w % 0x100, w / 0x100 % 0x100, w / 0x100 / 0x100 % 0x100, w / 0x100 / 0x100 / 0x100]
  }

  /** The word number i. */
  function Get(b: Bytes, i: nat): Word
    requires 4 * i + 4 <= |b|
  {
    b[4 * i] as int + 0x100 * b[4 * i + 1] as int + 0x1_0000 * b[4 * i + 2] as int + 0x100_0000 * b[4 * i + 3] as int
  }

  function Put(b: Bytes, i: nat, w: Word): (r: Bytes)
    requires 4 * i + 4 <= |b|
    ensures |r| == |b|
  {
    b[..4 * i] + Digits(w) + b[4 * i + 4..]
  }

  lemma DigitsSum(w: Word)
    ensures var d := Digits(w);
            d[0] as int + 0x100 * d[1] as int + 0x1_0000 * d[2] as int + 0x100_0000 * d[3] as int == w
  {
    var a := w / 0x100;
    var b := a / 0x100;
    assert w == 0x100 * a + w % 0x100 && a == 0x100 * b + a % 0x100 && b == 0x100 * (b / 0x100) + b % 0x100;
  }

  /** A word written is read back, and no other word and no byte outside it changes. */
  lemma GetPut(b: Bytes, i: nat, w: Word)
    requires 4 * i + 4 <= |b|
    ensures Get(Put(b, i, w), i) == w
    ensures forall j: nat :: j != i && 4 * j + 4 <= |b| ==> Get(Put(b, i, w), j) == Get(b, j)
    ensures forall k :: 0 <= k < |b| && !(4 * i <= k < 4 * i + 4) ==> Put(b, i, w)[k] == b[k]
  {
    DigitsSum(w);
  }

  /** Reading a count of bytes into the front of an image. */
  function Overlay(front: Bytes, b: Bytes): (r: Bytes)
    ensures |r| == if |front| > |b| then |front| else |b|
  {
    front + if |front| < |b| then b[|front|..] else []
  }

  lemma GetOverlay(front: Bytes, b: Bytes, i: nat)
    requires 4 * i + 4 <= |Overlay(front, b)|
    ensures 4 * i + 4 <= |front| ==> Get(Overlay(front, b), i) == Get(front, i)
    ensures |front| <= 4 * i ==> Get(Overlay(front, b), i) == Get(b, i)
  {
  }
}
