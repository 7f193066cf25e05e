/** Disk sectors.

    The kernel gives a sector's 512 bytes one of four readings: file data, an array of
    128 words (`(uint*)bp->data`: block numbers in fs.c, the log header in log.c), 4096
    bits of the free map, or IPB inodes.  A block records the reading it was written with; a zeroed block
    reads as zeros under each.  That no block is read as what it is not is part of the
    invariants proved over it. */
module Blocks {
  const BSIZE := 512
  const NINDIRECT := 128
  const BPB := 4096

  const NDIRECT := 12
  const IPB := 4

  type Byte = b: int | 0 <= b < 256

  /** What an inode says about its file; a free inode has kind 0. */
  datatype Meta = Meta(kind: nat, major: nat, minor: nat, nlink: nat, password: string)

  const NO_META := Meta(0, 0, 0, 0, "")

  /** addrs has the NDIRECT direct numbers and then the single-indirect one. */
  datatype Inode = Inode(addrs: seq<nat>, indirect2: nat, size: nat, meta: Meta)

  datatype Block =
    | Zero
    | Words(words: seq<nat>)
    | Data(bytes: seq<Byte>)
    | Bits(bits: seq<bool>)
    | Dinodes(inodes: seq<Inode>)

  type Disk = seq<Block>

  function Repeat<T>(v: T, n: nat): (r: seq<T>)
    ensures |r| == n && forall i :: 0 <= i < n ==> r[i] == v
  {
    seq(n, _ => v)
  }

  function WordsOf(b: Block): (r: seq<nat>)
    ensures |r| == NINDIRECT
  {
    if b.Words? && |b.words| == NINDIRECT then b.words else Repeat(0, NINDIRECT)
  }

  function BytesOf(b: Block): (r: seq<Byte>)
    ensures |r| == BSIZE
  {
    if b.Data? && |b.bytes| == BSIZE then b.bytes else Repeat(0, BSIZE)
  }

  function BitsOf(b: Block): (r: seq<bool>)
    ensures |r| == BPB
  {
    if b.Bits? && |b.bits| == BPB then b.bits else Repeat(false, BPB)
  }

  const EMPTY_INODE := Inode(Repeat(0, NDIRECT + 1), 0, 0, NO_META)

  /** The inode without its blocks. */
  function Emptied(ip: Inode): Inode {
    Inode(Repeat(0, NDIRECT + 1), 0, 0, ip.meta)
  }

  function InodesOf(b: Block): (r: seq<Inode>)
    ensures |r| == IPB
  {
    if b.Dinodes? && |b.inodes| == IPB then b.inodes else Repeat(EMPTY_INODE, IPB)
  }

  /** The i-th word of a block. */
  function Word(b: Block, i: nat): nat
    requires i < NINDIRECT
  {
    WordsOf(b)[i]
  }

  /** Stores word `v` at word index `i`; no other word changes. */
  function SetWord(b: Block, i: nat, v: nat): (r: Block)
    requires i < NINDIRECT
    ensures Word(r, i) == v
    ensures forall j :: 0 <= j < NINDIRECT && j != i ==> Word(r, j) == Word(b, j)
  {
    Words(WordsOf(b)[i := v])
  }
}
