/** Pipes (kern/pipe.c).  pipewrite and piperead hold the pipe's lock except while they sleep, so every interleaving is
a sequence of calls of the methods below: each runs from a point where the lock has been taken to the next point
where it is given up, by returning or by sleeping.
*/
module Pipe {
  import opened Common

  const PIPESIZE := 512

  /** The counters are uint32_t. */
  const WRAP := 0x1_0000_0000

  datatype WriteResult = Wrote | WriteSleeps | WriteFails

  datatype ReadResult = Read(bytes: seq<Byte>) | ReadSleeps | ReadFails

  /** Two counters less than WRAP apart differ, once wrapped, by their difference. */
  lemma WrappedDifference(w: nat, r: nat)
    requires r <= w < r + WRAP
    ensures (w % WRAP - r % WRAP) % WRAP == w - r
  {
    var a, b := w / WRAP, r / WRAP;
    assert w == WRAP * a + w % WRAP && r == WRAP * b + r % WRAP;
    assert a == b || a == b + 1;
  }

  lemma WrappedSum(r: nat, d: nat)
    ensures (r % WRAP + d) % WRAP == (r + d) % WRAP
  {
    var b := r / WRAP;
    assert r + d == WRAP * b + (r % WRAP + d);
    MultipleDropped(b, r % WRAP + d);
  }

  lemma MultipleDropped(b: nat, x: nat)
    ensures (WRAP * b + x) % WRAP == x % WRAP
  {
  }

  /** PIPESIZE divides WRAP. */
  lemma WrappedIndex(w: nat)
    ensures w % WRAP % PIPESIZE == w % PIPESIZE
  {
    var a := w / WRAP;
    assert w == PIPESIZE * (0x80_0000 * a) + w % WRAP;
  }

  /** What the wrapped counters tell, when at most PIPESIZE bytes are buffered. */
  lemma Counters(w: nat, r: nat)
    requires r <= w <= r + PIPESIZE
    ensures w % WRAP == (r % WRAP + PIPESIZE) % WRAP <==> w == r + PIPESIZE
    ensures r % WRAP == w % WRAP <==> w == r
    ensures (w % WRAP + 1) % WRAP == (w + 1) % WRAP && (r % WRAP + 1) % WRAP == (r + 1) % WRAP
    ensures w % WRAP % PIPESIZE == w % PIPESIZE && r % WRAP % PIPESIZE == r % PIPESIZE
  {
    WrappedDifference(w, r);
    WrappedDifference(r + PIPESIZE, w);
    WrappedSum(r, PIPESIZE);
    WrappedSum(r, 1);
    WrappedSum(w, 1);
    WrappedIndex(w);
    WrappedIndex(r);
  }

  /** A slot of the ring is not used again before its byte has been read. */
  lemma Slots(k: nat, w: nat)
    requires k < w < k + PIPESIZE
    ensures k % PIPESIZE != w % PIPESIZE
  {
  }

  class Pipe {
    const data: array<Byte>
    var nread: nat
    var nwrite: nat
    var readopen: bool
    var writeopen: bool
    /** Processes asleep on the channels &nread and &nwrite. */
    var readers: set<nat>
    var writers: set<nat>
    /** All bytes ever written and read. */
    ghost var written: seq<Byte>
    ghost var got: seq<Byte>

    /** pipealloc */
    constructor ()
      ensures Valid() && Known() && written == got == [] && readopen && writeopen && fresh(data)
      ensures readers == writers == {}
    {
      data := new Byte[PIPESIZE];
      nread, nwrite, readopen, writeopen := 0, 0, true, true;
      readers, writers, written, got := {}, {}, [], [];
    }

    /** The bytes read are the first ones written, the others are in the ring in order. */
    ghost predicate Valid()
      reads this, data
    {
      && data.Length == PIPESIZE
      && |got| <= |written| <= |got| + PIPESIZE && got == written[..|got|]
      && nread == |got| % WRAP && nwrite == |written| % WRAP
      && (forall k | |got| <= k < |written| :: data[k % PIPESIZE] == written[k])
    }

    /** Bytes that still fit the ring. */
    ghost function Room(): (n: int)
      reads this
    {
      PIPESIZE - (|written| - |got|)
    }

    /** No reader sleeps beside bytes or a closed write end. */
    ghost predicate ReadersKnow()
      reads this
    {
      readers != {} ==> |written| == |got| && writeopen
    }

    /** No writer sleeps beside room or a closed read end. */
    ghost predicate WritersKnow()
      reads this
    {
      writers != {} ==> |written| == |got| + PIPESIZE && readopen
    }

    ghost predicate Known()
      reads this
    {
      ReadersKnow() && WritersKnow()
    }

    /** nwrite - nread is the number of bytes in the ring, wrapped or not. */
    lemma Fill()
      requires Valid()
      ensures (nwrite - nread) % WRAP == |written| - |got| <= PIPESIZE
    {
      WrappedDifference(|written|, |got|);
    }

    /** data[nwrite++ % PIPESIZE] = c */
    method Put(c: Byte)
      requires Valid() && |written| < |got| + PIPESIZE
      modifies this`nwrite, this`written, data
      ensures Valid() && written == old(written) + [c]
    {
      Counters(|written|, |got|);
      forall k: nat | |got| <= k < |written| ensures k % PIPESIZE != |written| % PIPESIZE {
        Slots(k, |written|);
      }
      data[nwrite % PIPESIZE] := c;
      nwrite := (nwrite + 1) % WRAP;
      written := written + [c];
    }

    /** data[nread++ % PIPESIZE] */
    method Get() returns (c: Byte)
      requires Valid() && |got| < |written|
      modifies this`nread, this`got
      ensures Valid() && got == old(got) + [c]
    {
      Counters(|written|, |got|);
      c := data[nread % PIPESIZE];
      assert c == written[|got|];
      nread := (nread + 1) % WRAP;
      got := got + [c];
    }

    /** pipewrite by process me, from byte i of addr on, until it returns or sleeps. */
    method WriteOn(me: nat, addr: seq<Byte>, i: nat, killed: bool) returns (r: WriteResult, j: nat)
      requires Valid() && i <= |addr|
      modifies this`nwrite, this`written, this`readers, this`writers, data
      ensures Valid() && i <= j <= |addr| && written == old(written) + addr[i..j]
      ensures r.Wrote? <==> j == |addr|
      ensures !r.Wrote? ==> |written| == |got| + PIPESIZE
      ensures r.WriteFails? <==> j < |addr| && (!readopen || killed)
      ensures old(WritersKnow()) ==> WritersKnow()
      ensures me !in old(writers) ==> (me in writers <==> r.WriteSleeps?)
      ensures readers == if r.WriteFails? then old(readers) else {}
      ensures j - i == if |addr| - i < old(Room()) then |addr| - i else old(Room())
      // a writer with more to write than the ring holds forgets the readers if it will give up; nobody else does
      ensures old(ReadersKnow()) ==>
        (ReadersKnow() <==> !(old(readers) != {} && |addr| - i > PIPESIZE && (!readopen || killed)))
    {
      j := i;
      while j < |addr|
        invariant Valid() && i <= j <= |addr| && written == old(written) + addr[i..j]
        invariant readers == old(readers) && writers == old(writers)
      {
        Counters(|written|, |got|);
        if nwrite == (nread + PIPESIZE) % WRAP {
          if !readopen || killed {
            return WriteFails, j;
          }
          readers := {};
          writers := writers + {me};
          return WriteSleeps, j;
        }
        Put(addr[j]);
        j := j + 1;
      }
      readers := {};
      return Wrote, j;
    }

    /** piperead by process me of up to n bytes, until it returns or sleeps. */
    method ReadOn(me: nat, n: nat, killed: bool) returns (r: ReadResult)
      requires Valid()
      modifies this`nread, this`got, this`readers, this`writers
      ensures Valid()
      ensures r.Read? ==> got == old(got) + r.bytes && |r.bytes| <= n && (|r.bytes| == n || |got| == |written|)
      ensures !r.Read? ==> got == old(got)
      ensures !r.Read? <==> |written| == |old(got)| && writeopen
      ensures r.Read? ==> writers == {}
      ensures r.Read? && n > 0 && r.bytes == [] ==> |written| == |got| && !writeopen
      ensures r.ReadFails? <==> killed && |written| == |old(got)| && writeopen
      ensures me !in old(readers) ==> (me in readers <==> r.ReadSleeps?)
      ensures old(Known()) ==> Known()
    {
      Counters(|written|, |got|);
      if nread == nwrite && writeopen {
        if killed {
          return ReadFails;
        }
        readers := readers + {me};
        return ReadSleeps;
      }
      var bytes: seq<Byte> := [];
      while |bytes| < n
        invariant Valid() && got == old(got) + bytes && |bytes| <= n && readers == old(readers)
      {
        Counters(|written|, |got|);
        if nread == nwrite {
          break;
        }
        var c := Get();
        bytes := bytes + [c];
      }
      writers := {};
      return Read(bytes);
    }

    /** pipeclose of one end; the pipe is freed when both are closed. */
    method Close(writable: bool) returns (freed: bool)
      requires Valid()
      modifies this`readopen, this`writeopen, this`readers, this`writers
      ensures Valid() && readopen == (old(readopen) && writable) && writeopen == (old(writeopen) && !writable)
      ensures freed <==> !readopen && !writeopen
      ensures old(Known()) ==> Known()
    {
      if writable {
        writeopen := false;
        readers := {};
      } else {
        readopen := false;
        writers := {};
      }
      return !readopen && !writeopen;
    }
  }

  /** A reader that stays asleep beside a full ring: it waits on the empty pipe, and a killed writer of 513 bytes
      fills the ring and gives up. */
  method ForgetReader(reader: nat, writer: nat, bytes: seq<Byte>) returns (p: Pipe)
    requires |bytes| == PIPESIZE + 1
    ensures fresh(p) && p.Valid() && reader in p.readers && |p.written| - |p.got| == PIPESIZE
  {
    p := new Pipe();
    var r := p.ReadOn(reader, 1, false);
    var w, j := p.WriteOn(writer, bytes, 0, true);
  }
}
