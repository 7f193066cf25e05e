/** The pipe's ring buffer with its 32-bit counters. */
module PipeCode {
  import opened Blocks
  import opened Pipe

  const WORD := 0x1_0000_0000

  /** PIPESIZE divides the counters' range, so an index survives their wrap-around. */
  lemma IndexOf(x: nat)
    ensures (x % WORD) % PIPESIZE == x % PIPESIZE
  {
    var q := x / WORD;
    assert x == PIPESIZE * (0x80_0000 * q) + x % WORD;
  }

  /** Counters that are at most PIPESIZE apart compare like the numbers they stand for. */
  lemma Compare(r: nat, w: nat)
    requires r <= w <= r + PIPESIZE
    ensures r % WORD == w % WORD <==> r == w
    ensures w % WORD == (r % WORD + PIPESIZE) % WORD <==> w == r + PIPESIZE
  {
  }

  /** Two positions of the ring that are less than PIPESIZE apart are different cells. */
  lemma CellsDiffer(x: nat, y: nat)
    requires x < y < x + PIPESIZE
    ensures x % PIPESIZE != y % PIPESIZE
  {
  }

  class Ring {
    const data: array<Byte>
    var nread: nat
    var nwrite: nat
    var readopen: bool
    var writeopen: bool
    ghost var written: seq<Byte>
    ghost var got: seq<Byte>

    ghost function Contents(): Buf
      reads this
    {
      Buf(written, got, readopen, writeopen)
    }

    ghost predicate Valid()
      reads this, data
    {
      && data.Length == PIPESIZE && Fifo(Contents())
      && nread == |got| % WORD && nwrite == |written| % WORD
      && forall k :: |got| <= k < |written| ==> data[k % PIPESIZE] == written[k]
    }

    constructor ()
      ensures Valid() && fresh(data) && Contents() == Buf([], [], true, true)
    {
      data := new Byte[PIPESIZE](_ => 0);
      nread, nwrite, readopen, writeopen := 0, 0, true, true;
      written, got := [], [];
    }

    method Put(c: Byte)
      requires Valid() && |written| - |got| < PIPESIZE
      modifies data, this`nwrite, this`written
      ensures Valid() && written == old(written) + [c]
    {
      IndexOf(|written|);
      forall k | |got| <= k < |written| ensures k % PIPESIZE != |written| % PIPESIZE {
        CellsDiffer(k, |written|);
      }
      data[nwrite % PIPESIZE] := c;
      nwrite := (nwrite + 1) % WORD;
      written := written + [c];
    }

    method Get() returns (c: Byte)
      requires Valid() && |got| < |written|
      modifies this`nread, this`got
      ensures Valid() && got == old(got) + [c] && c == written[|old(got)|]
    {
      IndexOf(|got|);
      c := data[nread % PIPESIZE];
      nread := (nread + 1) % WORD;
      got := got + [c];
    }

    /** pipewrite from where it has the lock, with `i` bytes of `addr` stored already, to
        where it sleeps or returns. */
    method WriteTurn(addr: seq<Byte>, i: nat, killed: bool) returns (i': nat, wakes: bool, r: Outcome)
      requires Valid() && i <= |addr|
      modifies data, this`nwrite, this`written
      ensures Valid() && Contents() == AfterWrite(old(Contents()), addr, i)
      ensures i' == i + Stored(old(Contents()), |addr| - i)
      ensures r == WriteEnds(old(Contents()), |addr| - i, killed) && wakes == !r.Failed?
      ensures i <= i' <= |addr| && written == old(written) + addr[i..i'] && got == old(got)
      ensures r.Done? <==> i' == |addr|
      ensures !r.Done? ==> |written| - |got| == PIPESIZE && (r.Failed? <==> !readopen || killed)
    {
      i' := i;
      while i' < |addr|
        invariant i <= i' <= |addr| && Valid() && written == old(written) + addr[i..i']
      {
        Compare(|got|, |written|);
        if nwrite == (nread + PIPESIZE) % WORD {
          if !readopen || killed {
            return i', false, Failed;
          }
          return i', true, Sleeps;
        }
        Put(addr[i']);
        i' := i' + 1;
      }
      return i', true, Done;
    }

    /** piperead from where it has the lock to where it sleeps or returns. */
    method ReadTurn(n: nat, killed: bool) returns (addr: seq<Byte>, wakes: bool, r: Outcome)
      requires Valid()
      modifies this`nread, this`got
      ensures Valid() && Contents() == AfterRead(old(Contents()), n, killed) && got == old(got) + addr
      ensures r == ReadEnds(old(Contents()), killed) && wakes == r.Done?
      ensures written == old(written) && |old(got)| + |addr| <= |written|
      ensures addr == written[|old(got)|..|old(got)| + |addr|]
      ensures r.Done? <==> |old(got)| < |written| || !writeopen
      ensures r.Done? ==> |addr| <= n && (|addr| == n || |got| == |written|)
      ensures !r.Done? ==> addr == [] && (r.Failed? <==> killed)
    {
      addr := [];
      Compare(|got|, |written|);
      if nread == nwrite && writeopen {
        return addr, false, if killed then Failed else Sleeps;
      }
      while |addr| < n
        invariant |addr| <= n && Valid() && got == old(got) + addr
      {
        Compare(|got|, |written|);
        if nread == nwrite {
          break;
        }
        var c := Get();
        addr := addr + [c];
      }
      return addr, true, Done;
    }
  }
}
