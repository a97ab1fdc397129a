/** Bytes, byte streams and files that grow by being written at a position. */
module Bytes {

  type Byte = x: int | 0 <= x < 256

  datatype Option<+T> = None | Some(value: T)

  function Min(a: nat, b: nat): nat {
    if a <= b then a else b
  }

  function Max(a: nat, b: nat): nat {
    if a <= b then b else a
  }

  /** Unsigned 64-bit arithmetic. */
  function Wrap64(x: int): (r: nat)
    ensures r < 0x1_0000_0000_0000_0000
    ensures 0 <= x < 0x1_0000_0000_0000_0000 ==> r == x
  {
    x % 0x1_0000_0000_0000_0000
  }

  /** A file after `data` was written at `pos`. A gap below `pos` reads as zeros; writing nothing changes nothing. */
  function WriteAt(file: seq<Byte>, pos: nat, data: seq<Byte>): seq<Byte> {
    if data == [] then file
    else if pos <= |file| then
      file[..pos] + data + if pos + |data| <= |file| then file[pos + |data|..] else []
    else file + Zeros(pos - |file|) + data
  }

  function Zeros(k: nat): seq<Byte> {
    seq(k, _ => 0)
  }

  /** The file holds `data` at `pos`. */
  ghost predicate FileHas(file: seq<Byte>, pos: nat, data: seq<Byte>) {
    data == [] || (pos + |data| <= |file| && file[pos..pos + |data|] == data)
  }

  /** Writing at `pos` keeps whatever the file holds strictly below or strictly above the written range. */
  lemma WriteAtKeeps(file: seq<Byte>, pos: nat, data: seq<Byte>, at: nat, kept: seq<Byte>)
    requires FileHas(file, at, kept)
    requires at + |kept| <= pos || pos + |data| <= at
    ensures FileHas(WriteAt(file, pos, data), at, kept)
  {
  }

  /** Two adjacent stretches of a file are one stretch. */
  lemma FileHasJoin(file: seq<Byte>, pos: nat, a: seq<Byte>, b: seq<Byte>)
    requires FileHas(file, pos, a) && FileHas(file, pos + |a|, b)
    ensures FileHas(file, pos, a + b)
  {
  }

  /** A file that holds a stretch holds its beginning. */
  lemma FileHasPrefix(file: seq<Byte>, a: seq<Byte>, k: nat)
    requires FileHas(file, 0, a) && k <= |a|
    ensures FileHas(file, 0, a[..k])
  {
  }

  lemma FileHasByte(file: seq<Byte>, pos: nat, data: seq<Byte>, k: nat)
    requires FileHas(file, pos, data) && k < |data|
    ensures pos + k < |file| && file[pos + k] == data[k]
  {
    assert file[pos..pos + |data|][k] == data[k];
  }

  /** Of a file that holds the stream from `base` on, the piece that belongs to `from`. */
  lemma FileHasSlice(file: seq<Byte>, base: nat, stream: seq<Byte>, from: nat, k: nat)
    requires base <= from <= from + k <= |stream| && FileHas(file, 0, stream[base..]) && k > 0
    ensures from - base + k <= |file| && file[from - base..from - base + k] == stream[from..from + k]
  {
    var s := stream[base..];
    assert file[0..|s|] == s;
    assert file[from - base..from - base + k] == s[from - base..from - base + k];
  }

  lemma SliceJoin(s: seq<Byte>, a: nat, b: nat, c: nat)
    requires a <= b <= c <= |s|
    ensures s[a..c] == s[a..b] + s[b..c]
  {
  }
}
