/** Names shared by every component. */
module Prelude {
  type byte = x: int | 0 <= x < 256

  datatype Option<+T> = None | Some(value: T)

  /** A 32-byte object id, kept abstract: only equality matters. */
  type ObjId = nat

  /** The bytes an object id stands for. */
  type Content = ObjId -> seq<byte>

  const U64_MAX: nat := 0xFFFF_FFFF_FFFF_FFFF

  type u64 = x: int | 0 <= x <= U64_MAX

  /** A 32-byte digest. */
  type Digest = s: seq<byte> | |s| == 32 witness seq(32, _ => 0)

  type Hash = seq<byte> -> Digest

  const ZERO_DIGEST: Digest :=
    [0, 0, 0, 0, 0, 0, 0, 0, 0, 0, 0, 0, 0, 0, 0, 0, 0, 0, 0, 0, 0, 0, 0, 0, 0, 0, 0, 0, 0, 0, 0, 0]

  function Min(a: int, b: int): int { if a <= b then a else b }
  function Max(a: int, b: int): int { if a >= b then a else b }

  function DivCeil(a: nat, b: nat): nat
    requires b > 0
  {
    if a % b == 0 then a / b else a / b + 1
  }

  /** Overwrite part of a byte string. */
  function Splice(file: seq<byte>, at: nat, data: seq<byte>): (r: seq<byte>)
    requires at + |data| <= |file|
    ensures |r| == |file|
  {
    file[..at] + data + file[at + |data|..]
  }

  lemma SpliceAt(file: seq<byte>, at: nat, data: seq<byte>, k: nat)
    requires at + |data| <= |file| && k < |file|
    ensures Splice(file, at, data)[k] == if at <= k < at + |data| then data[k - at] else file[k]
  {
  }
}
