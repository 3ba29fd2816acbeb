/** The buffer of differences: a list of fixed-size blocks that the server fills at the end and
    empties at the front. */
module RewriteBuffers {
  import opened Wire

  /** AOF_RW_BUF_BLOCK_SIZE. */
  const BLOCK_SIZE := 10 * 1024 * 1024

  class Block {
    const buf: array<byte>
    var used: nat
    var free: nat

    ghost predicate Valid()
      reads this
    {
      buf.Length == BLOCK_SIZE && used + free <= BLOCK_SIZE
    }

    ghost function Data(): Bytes
      requires Valid()
      reads this, buf
    {
      buf[..used]
    }

    constructor ()
      ensures Valid() && fresh(buf) && used == 0 && free == BLOCK_SIZE
    {
      buf := new byte[BLOCK_SIZE];
      used, free := 0, BLOCK_SIZE;
    }

    /** The memcpy of aofRewriteBufferAppend. */
    method Fill(s: Bytes)
      requires Valid() && |s| <= free
      modifies this, buf
      ensures Valid() && free == old(free) - |s|
      ensures Data() == old(Data()) + s
    {
      forall i | 0 <= i < |s| {
        buf[used + i] := s[i];
      }
      used := used + |s|;
      free := free - |s|;
    }

    /** The memmove of aofChildWriteDiffData; the freed place at the end is not used again. */
    method Drop(n: nat)
      requires Valid() && n <= used
      modifies this, buf
      ensures Valid() && free == old(free)
      ensures Data() == old(Data())[n..]
    {
      forall i | 0 <= i < used - n {
        buf[i] := buf[i + n];
      }
      used := used - n;
    }
  }

  ghost predicate Apart(blocks: seq<Block>) {
    forall i, j :: 0 <= i < j < |blocks| ==> blocks[i] != blocks[j] && blocks[i].buf != blocks[j].buf
  }

  ghost predicate AllValid(blocks: seq<Block>)
    reads blocks
  {
    forall i :: 0 <= i < |blocks| ==> blocks[i].Valid()
  }

  ghost function Bufs(blocks: seq<Block>): set<array<byte>> {
    set i | 0 <= i < |blocks| :: blocks[i].buf
  }

  /** All bytes of a list of blocks. */
  ghost function Joined(blocks: seq<Block>): Bytes
    requires AllValid(blocks)
    reads blocks, Bufs(blocks)
  {
    if blocks == [] then []
    else
      assert forall i :: 0 <= i < |blocks[1..]| ==> blocks[1..][i] == blocks[i + 1];
      blocks[0].Data() + Joined(blocks[1..])
  }

  lemma {:induction false} JoinedLast(blocks: seq<Block>)
    requires blocks != [] && AllValid(blocks)
    ensures Joined(blocks) == Joined(blocks[..|blocks| - 1]) + blocks[|blocks| - 1].Data()
    decreases blocks
  {
    var n := |blocks| - 1;
    if n > 0 {
      assert blocks[1..][..n - 1] == blocks[..n][1..];
      JoinedLast(blocks[1..]);
      Assoc(blocks[0].Data(), Joined(blocks[1..][..n - 1]), blocks[n].Data());
    }
  }

  twostate lemma {:induction false} JoinedUnchanged(blocks: seq<Block>)
    requires old(AllValid(blocks))
    requires forall i :: 0 <= i < |blocks| ==> unchanged(blocks[i]) && unchanged(blocks[i].buf)
    ensures AllValid(blocks) && Joined(blocks) == old(Joined(blocks))
    decreases blocks
  {
    if blocks != [] {
      JoinedUnchanged(blocks[1..]);
    }
  }

  lemma JoinedFirst(blocks: seq<Block>)
    requires AllValid(blocks) && blocks != []
    ensures AllValid(blocks[1..]) && Joined(blocks) == blocks[0].Data() + Joined(blocks[1..])
  {
  }

  lemma JoinedFrom(blocks: seq<Block>, i: nat)
    requires AllValid(blocks) && i < |blocks|
    ensures Joined(blocks[i..]) == blocks[i].Data() + Joined(blocks[i + 1..])
  {
    assert blocks[i..][1..] == blocks[i + 1..];
  }

  lemma JoinedNothing()
    ensures Joined([]) == []
  {
  }

  lemma DropFront(a: Bytes, b: Bytes, n: nat)
    requires n <= |a|
    ensures (a + b)[n..] == a[n..] + b && a + b == a[..n] + (a + b)[n..]
    ensures n == |a| ==> (a + b)[n..] == b
  {
  }

  /** A write that stops inside a block. */
  lemma Torn(out: Bytes, data: Bytes, n: nat, rest: Bytes)
    requires n < |data|
    ensures out + data[..n] < out + (data + rest)
  {
  }

  /** Every one of the writes accepts at least so many bytes. */
  predicate AllTake(results: seq<int>, n: int) {
    forall i :: 0 <= i < |results| ==> results[i] >= n
  }

  /** The list aof_rewrite_buf_blocks. */
  class RewriteBuffer {
    ghost var Contents: Bytes  // all bytes that wait
    ghost var Repr: set<object>

    var blocks: seq<Block>

    ghost predicate Linked()
      reads this, Repr
    {
      this in Repr &&
      (forall i :: 0 <= i < |blocks| ==> blocks[i] in Repr && blocks[i].buf in Repr) &&
      AllValid(blocks) && Apart(blocks) && Contents == Joined(blocks)
    }

    /** Between calls every block holds something. */
    ghost predicate Valid()
      reads this, Repr
    {
      Linked() && forall i :: 0 <= i < |blocks| ==> blocks[i].used > 0
    }

    /** Inside an append the last block may have just been allocated. */
    ghost predicate NearlyValid()
      reads this, Repr
    {
      Linked() && forall i :: 0 <= i < |blocks| ==> blocks[i].used > 0 || (i == |blocks| - 1 && blocks[i].free > 0)
    }

    /** aofRewriteBufferReset. */
    constructor ()
      ensures Valid() && fresh(Repr) && Contents == []
    {
      blocks := [];
      Contents, Repr := [], {this};
    }

    /** There are blocks exactly when there are bytes. */
    lemma BlocksHoldBytes()
      requires Valid()
      ensures blocks == [] <==> Contents == []
    {
      if blocks != [] {
        assert |blocks[0].Data()| > 0;
      }
    }

    /** aofRewriteBufferSize. */
    method Size() returns (size: nat)
      requires Valid()
      ensures size == |Contents|
    {
      hide Joined;
      JoinedNothing();
      size := 0;
      var i := 0;
      while i < |blocks|
        invariant 0 <= i <= |blocks| && size == |Joined(blocks[..i])|
      {
        JoinedLast(blocks[..i + 1]);
        assert blocks[..i + 1][..i] == blocks[..i];
        size := size + blocks[i].used;
        i := i + 1;
      }
      assert blocks[..i] == blocks;
      assert Linked() && Contents == Joined(blocks);
    }

    /** The copying in aofRewriteBufferAppend: as much as fits into the last block. */
    method FillLast(s: Bytes) returns (n: nat)
      requires NearlyValid() && blocks != []
      modifies Repr
      ensures Linked() && blocks == old(blocks) && Repr == old(Repr) && n <= |s|
      ensures Contents == old(Contents) + s[..n]
      ensures n == |s| || n == old(blocks[|blocks| - 1].free)
      ensures n > 0 || s == [] ==> NearlyValid()
      ensures n < |s| || n > 0 ==> Valid()
    {
      hide Joined, Bufs;
      var last := blocks[|blocks| - 1];
      n := if last.free < |s| then last.free else |s|;
      JoinedLast(blocks);
      label before:
      last.Fill(s[..n]);
      Contents := Contents + s[..n];
      JoinedUnchanged@before(blocks[..|blocks| - 1]);
      JoinedLast(blocks);
      Assoc(Joined(blocks[..|blocks| - 1]), old(last.Data()), s[..n]);
    }

    /** Allocates another block at the end of the list. */
    method Grow()
      requires Valid()
      modifies this
      ensures NearlyValid() && fresh(Repr - old(Repr)) && old(Repr) <= Repr
      ensures Contents == old(Contents) && blocks != [] && blocks[|blocks| - 1].free > 0
    {
      hide Joined, Bufs;
      var block := new Block();
      blocks, Repr := blocks + [block], Repr + {block, block.buf};
      JoinedUnchanged(old(blocks));
      assert blocks[..|blocks| - 1] == old(blocks) && block.Data() == [];
      JoinedLast(blocks);
      assert Contents + [] == Contents;
    }

    ghost predicate HasRoom()
      reads this, blocks
    {
      blocks != [] && blocks[|blocks| - 1].free > 0
    }

    /** One turn of the loop in aofRewriteBufferAppend. */
    method AppendSome(rest: Bytes) returns (left: Bytes)
      requires NearlyValid() && rest != []
      modifies Repr
      ensures NearlyValid() && (left == [] ==> Valid()) && fresh(Repr - old(Repr))
      ensures Contents + left == old(Contents) + rest
      ensures |left| <= |rest| && (old(HasRoom()) ==> |left| < |rest|) && (left != [] ==> HasRoom())
    {
      left := rest;
      if blocks != [] {
        var n := FillLast(rest);
        assert rest == rest[..n] + rest[n..];
        Assoc(old(Contents), rest[..n], rest[n..]);
        left := rest[n..];
      }
      if |left| > 0 {
        Grow();
      }
    }

    /** aofRewriteBufferAppend. */
    method Append(s: Bytes)
      requires Valid()
      modifies Repr
      ensures Valid() && fresh(Repr - old(Repr)) && Contents == old(Contents) + s
    {
      hide Linked;
      var rest := s;
      while |rest| > 0
        invariant NearlyValid() && (rest == [] ==> Valid()) && fresh(Repr - old(Repr))
        invariant Contents + rest == old(Contents) + s
        decreases |rest|, !HasRoom()
      {
        rest := AppendSome(rest);
      }
    }

    /** A write of n bytes from the first block. */
    method SendFirst(n: nat) returns (sent: Bytes)
      requires Valid() && blocks != [] && n <= blocks[0].used
      modifies Repr
      ensures Linked() && Repr == old(Repr) && blocks == old(blocks)
      ensures |sent| == n && old(Contents) == sent + Contents
      ensures forall i :: 0 < i < |blocks| ==> blocks[i].used > 0
    {
      JoinedFirst(blocks);
      hide Joined, Bufs;
      var block := blocks[0];
      ghost var data := block.Data();
      sent := block.buf[..n];
      label before:
      block.Drop(n);
      Contents := Contents[n..];
      JoinedUnchanged@before(blocks[1..]);
      DropFront(data, old(Joined(blocks[1..])), n);
      JoinedFirst(blocks);
    }

    /** listDelNode of a first block that is empty. */
    method DeleteFirst()
      requires Linked() && blocks != [] && blocks[0].used == 0
      requires forall i :: 0 < i < |blocks| ==> blocks[i].used > 0
      modifies this
      ensures Valid() && Repr == old(Repr) && Contents == old(Contents)
    {
      JoinedFirst(blocks);
      hide Joined, Bufs;
      assert blocks[0].Data() + Joined(blocks[1..]) == Joined(blocks[1..]);
      blocks := blocks[1..];
      JoinedUnchanged(blocks);
    }

    /** aofChildWriteDiffData. The results are what one write() after the other would accept, none left
        meaning that the pipe is full. */
    method SendDiff(stop: bool, results: seq<int>) returns (sent: Bytes, handlerDeleted: bool)
      requires Valid()
      modifies Repr
      ensures Valid() && Repr == old(Repr) && old(Contents) == sent + Contents
      ensures stop ==> sent == []
      ensures handlerDeleted <==> stop || Contents == []
      ensures results == [] || results[0] <= 0 ==> sent == []
      ensures !stop && AllTake(results, 1) && |results| >= |old(Contents)| ==> Contents == []
    {
      hide Linked;
      sent := [];
      var k := 0;
      while true
        invariant 0 <= k <= |results| && Valid() && Repr == old(Repr)
        invariant old(Contents) == sent + Contents && |sent| >= k
        invariant stop || k == 0 ==> sent == []
        invariant k > 0 ==> results[0] > 0
        decreases |results| - k
      {
        BlocksHoldBytes();
        if stop || blocks == [] {
          handlerDeleted := true;
          return;
        }
        if k == |results| || results[k] <= 0 {
          handlerDeleted := false;
          return;
        }
        var n := if results[k] < blocks[0].used then results[k] else blocks[0].used;
        k := k + 1;
        var more := SendFirst(n);
        if blocks[0].used == 0 {
          DeleteFirst();
        }
        Assoc(sent, more, Contents);
        sent := sent + more;
      }
    }

    /** aofRewriteBufferWrite: gives up at the first write that is not complete. */
    method WriteAll(results: seq<int>) returns (ok: bool, out: Bytes)
      requires Valid()
      ensures ok ==> out == Contents
      ensures !ok ==> out < Contents
      ensures AllTake(results, |Contents|) && |results| >= |blocks| ==> ok
      ensures results == [] ==> out == []
    {
      hide Joined;
      assert blocks[0..] == blocks && [] + Contents == Contents;
      out := [];
      var i, k := 0, 0;
      while i < |blocks|
        invariant 0 <= i <= |blocks| && k <= i && Contents == out + Joined(blocks[i..])
        invariant results == [] ==> out == []
      {
        var block := blocks[i];
        JoinedFrom(blocks, i);
        if block.used > 0 {
          var accepted := if k < |results| then results[k] else -1;
          var n := if accepted < 0 then 0 else if accepted < block.used then accepted else block.used;
          ghost var data := block.Data();
          if n != block.used {
            Torn(out, data, n, Joined(blocks[i + 1..]));
            out := out + block.buf[..n];
            return false, out;
          }
          Assoc(out, data, Joined(blocks[i + 1..]));
          out := out + block.buf[..n];
          k := k + 1;
        }
        i := i + 1;
      }
      ok := true;
      assert blocks[i..] == [];
      JoinedNothing();
      assert out + [] == out;
    }
  }
}
