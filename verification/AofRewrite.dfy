/**
 Rewriting the append only file in the background. While a child writes a snapshot to a new
 file, the parent keeps what is fed meanwhile in a list of blocks and sends parts of it to the
 child through a pipe. The child asks the parent to stop, reads what is left in the pipe and
 appends what it read; the parent appends the rest and installs the file.
 */
module AofRewrite {
  import opened Common

  // ---------------------------------------------------------------- the rewrite buffer

  const BLOCK_SIZE: nat := 10485760

  /** A block: the used bytes of its array, and how many more it will take. */
  datatype Block = Block(data: seq<Byte>, free: nat)

  function Contents(blocks: seq<Block>): seq<Byte> {
    if blocks == [] then [] else Contents(blocks[..|blocks| - 1]) + blocks[|blocks| - 1].data
  }

  /** No block is filled beyond its array; bytes sent to the child are not given back to `free`. */
  ghost predicate Fits(blocks: seq<Block>) {
    forall i :: 0 <= i < |blocks| ==> |blocks[i].data| + blocks[i].free <= BLOCK_SIZE
  }

  lemma ContentsExtend(blocks: seq<Block>, b: Block)
    ensures Contents(blocks + [b]) == Contents(blocks) + b.data
  {
    assert (blocks + [b])[..|blocks|] == blocks;
  }

  lemma {:induction false} ContentsFirst(blocks: seq<Block>)
    requires blocks != []
    ensures Contents(blocks) == blocks[0].data + Contents(blocks[1..])
  {
    if |blocks| > 1 {
      var (init, last) := (blocks[..|blocks| - 1], blocks[|blocks| - 1]);
      ContentsFirst(init);
      assert blocks[1..] == init[1..] + [last];
      ContentsExtend(init[1..], last);
      assert init[0].data + (Contents(init[1..]) + last.data) == init[0].data + Contents(init[1..]) + last.data;
    } else {
      assert blocks[1..] == [] && blocks[..0] == [];
      assert Contents(blocks) == [] + blocks[0].data == blocks[0].data + [];
    }
  }

  /** write(2) took all of block i, or there was nothing to write. */
  predicate Whole(wrote: seq<int>, i: nat, block: Block) {
    block.data == [] || (i < |wrote| && wrote[i] == |block.data|)
  }

  function Total(ns: seq<int>): int {
    if ns == [] then 0 else Total(ns[..|ns| - 1]) + ns[|ns| - 1]
  }

  class RewriteBuffer {
    var blocks: seq<Block>

    ghost predicate Valid()
      reads this
    {
      Fits(blocks)
    }

    constructor ()
      ensures Valid() && Contents(blocks) == []
    {
      blocks := [];
    }

    /** aofRewriteBufferAppend */
    method Append(s: seq<Byte>)
      requires Valid()
      modifies this
      ensures Valid() && Contents(blocks) == old(Contents(blocks)) + s
    {
      hide Contents;
      var rest := s;
      while |rest| > 0
        invariant Valid() && Contents(blocks) + rest == old(Contents(blocks)) + s
        decreases |rest|, if blocks != [] && blocks[|blocks| - 1].free > 0 then 0 else 1
      {
        if |blocks| > 0 {
          var block := blocks[|blocks| - 1];
          var thislen := if block.free < |rest| then block.free else |rest|;
          if thislen > 0 {
            ghost var before := Contents(blocks);
            Extend(rest[..thislen]);
            assert before + rest[..thislen] + rest[thislen..] == before + rest;
            rest := rest[thislen..];
          }
        }
        if |rest| > 0 {
          ContentsExtend(blocks, Block([], BLOCK_SIZE));
          assert Contents(blocks) + [] == Contents(blocks);
          blocks := blocks + [Block([], BLOCK_SIZE)];
        }
      }
      assert Contents(blocks) + rest == Contents(blocks);
    }

    /** The memcpy of aofRewriteBufferAppend: it stays inside the last block. */
    method Extend(bytes: seq<Byte>)
      requires Valid() && blocks != [] && |bytes| <= blocks[|blocks| - 1].free
      modifies this
      ensures Valid() && |blocks| == |old(blocks)| && Contents(blocks) == old(Contents(blocks)) + bytes
      ensures blocks[|blocks| - 1].free == old(blocks)[|blocks| - 1].free - |bytes|
    {
      var init, last := blocks[..|blocks| - 1], blocks[|blocks| - 1];
      assert |last.data| + |bytes| <= BLOCK_SIZE;
      blocks := init + [Block(last.data + bytes, last.free - |bytes|)];
      ContentsExtend(init, blocks[|blocks| - 1]);
      assert Contents(init) + (last.data + bytes) == Contents(init) + last.data + bytes;
    }

    /**
     aofChildWriteDiffData. `taken` are the results of its calls of write(2) on the pipe; when they
     are used up the pipe is full. What goes into the pipe comes off the front of the buffer: as much
     as the first `calls` of them took, up to the one that failed or until nothing is left.
     */
    method WriteDiffData(stopSending: bool, taken: seq<int>) returns (sent: seq<Byte>, calls: nat)
      requires Valid()
      modifies this
      ensures Valid() && sent + Contents(blocks) == old(Contents(blocks))
      ensures stopSending ==> sent == []
      ensures calls <= |taken| && |sent| == Total(taken[..calls]) && forall i :: 0 <= i < calls ==> taken[i] > 0
      ensures || stopSending || blocks == [] || calls == |taken|
              || taken[calls] <= 0 || taken[calls] > |blocks[0].data| > 0
    {
      hide Contents;
      sent := [];
      assert sent + Contents(blocks) == Contents(blocks);
      calls := 0;
      while true
        invariant Valid() && sent + Contents(blocks) == old(Contents(blocks)) && calls <= |taken|
        invariant stopSending ==> sent == []
        invariant |sent| == Total(taken[..calls]) && forall i :: 0 <= i < calls ==> taken[i] > 0
        decreases |blocks|, |taken| - calls
      {
        if stopSending || |blocks| == 0 { return; }
        var block := blocks[0];
        if |block.data| > 0 {
          if calls == |taken| || taken[calls] <= 0 || taken[calls] > |block.data| { return; }
          var nwritten := taken[calls];
          assert taken[..calls + 1][..calls] == taken[..calls];
          calls := calls + 1;
          SendFront(nwritten);
          assert sent + block.data[..nwritten] + Contents(blocks) == sent + (block.data[..nwritten] + Contents(blocks));
          sent := sent + block.data[..nwritten];
        }
        if |blocks[0].data| == 0 {
          ContentsFirst(blocks);
          assert [] + Contents(blocks[1..]) == Contents(blocks[1..]);
          blocks := blocks[1..];
        }
      }
    }

    /** The memmove of aofChildWriteDiffData. */
    method SendFront(n: nat)
      requires Valid() && blocks != [] && n <= |blocks[0].data|
      modifies this
      ensures Valid() && |blocks| == |old(blocks)| && old(blocks)[0].data[..n] + Contents(blocks) == old(Contents(blocks))
    {
      var block := blocks[0];
      ContentsFirst(blocks);
      blocks := blocks[0 := Block(block.data[n..], block.free)];
      ContentsFirst(blocks);
      assert blocks[1..] == old(blocks)[1..];
      assert block.data[..n] + (block.data[n..] + Contents(blocks[1..])) == block.data + Contents(blocks[1..]);
    }

    /** aofRewriteBufferWrite: either every block is written whole, in order, or the failure is reported. */
    method Write(wrote: seq<int>) returns (count: int, out: seq<Byte>)
      ensures count == -1 || (out == Contents(blocks) && count == |out|)
      ensures count != -1 <==> forall i :: 0 <= i < |blocks| ==> Whole(wrote, i, blocks[i])
    {
      count, out := 0, [];
      for i := 0 to |blocks|
        invariant out == Contents(blocks[..i]) && count == |out|
        invariant forall k :: 0 <= k < i ==> Whole(wrote, k, blocks[k])
      {
        var block := blocks[i];
        assert blocks[..i + 1] == blocks[..i] + [block];
        ContentsExtend(blocks[..i], block);
        if |block.data| > 0 {
          var nwritten := if i < |wrote| then wrote[i] else -1;
          if nwritten != |block.data| {
            assert !Whole(wrote, i, blocks[i]);
            return -1, out;
          }
          out := out + block.data;
          count := count + nwritten;
        }
      }
      assert blocks[..|blocks|] == blocks;
    }

    /** aofRewriteBufferSize */
    method Size() returns (size: nat)
      ensures size == |Contents(blocks)|
    {
      size := 0;
      for i := 0 to |blocks|
        invariant size == |Contents(blocks[..i])|
      {
        assert blocks[..i + 1] == blocks[..i] + [blocks[i]];
        ContentsExtend(blocks[..i], blocks[i]);
        size := size + |blocks[i].data|;
      }
      assert blocks[..|blocks|] == blocks;
    }
  }

  // ---------------------------------------------------------------- the handshake

  /** Where the child stands: writing the snapshot, waiting for the parent's answer, told to go on, done reading. */
  datatype Phase = Writing | Asked | Acked | Done

  /**
   The state the two processes share. `pending` is the content of the parent's blocks, `pipe` what
   was sent and not yet read, `diff` what the child has read, `fed` everything fed since the fork.
   */
  datatype Rewrite = Rewrite(
    pending: seq<Byte>,
    pipe: seq<Byte>,
    diff: seq<Byte>,
    stopSending: bool,
    phase: Phase,
    fed: seq<Byte>)

  const FORK := Rewrite([], [], [], false, Writing, [])

  datatype Step =
    | Feed(bytes: seq<Byte>)
    | Send(n: nat)
    | ChildRead(n: nat)
    | ChildAsk
    | ParentStop(acked: bool)
    | FinalRead(n: nat)

  predicate Enabled(r: Rewrite, s: Step) {
    match s
    case Feed(_) => true
    case Send(n) => !r.stopSending && n <= |r.pending|
    case ChildRead(n) => r.phase == Writing && n <= |r.pipe|
    case ChildAsk => r.phase == Writing
    case ParentStop(_) => r.phase == Asked && !r.stopSending
    case FinalRead(n) => r.phase == Acked && n <= |r.pipe|
  }

  function Apply(r: Rewrite, s: Step): Rewrite
    requires Enabled(r, s)
  {
    match s
    case Feed(bytes) => r.(pending := r.pending + bytes, fed := r.fed + bytes)
    case Send(n) => r.(pending := r.pending[n..], pipe := r.pipe + r.pending[..n])
    case ChildRead(n) => r.(pipe := r.pipe[n..], diff := r.diff + r.pipe[..n])
    case ChildAsk => r.(phase := Asked)
    case ParentStop(acked) => r.(stopSending := true, phase := if acked then Acked else Asked)
    case FinalRead(n) => r.(pipe := r.pipe[n..], diff := r.diff + r.pipe[..n], phase := Done)
  }

  ghost predicate IsRun(r: Rewrite, steps: seq<Step>, last: Rewrite)
    decreases |steps|
  {
    if steps == [] then r == last
    else Enabled(r, steps[0]) && IsRun(Apply(r, steps[0]), steps[1..], last)
  }

  /** Every fed byte is in exactly one place, in order, and the child goes on only once the parent has stopped. */
  ghost predicate Conserved(r: Rewrite) {
    && r.fed == r.diff + r.pipe + r.pending
    && (r.phase == Acked || r.phase == Done ==> r.stopSending)
  }

  lemma StepConserves(r: Rewrite, s: Step)
    requires Conserved(r) && Enabled(r, s)
    ensures Conserved(Apply(r, s))
    ensures r.phase == Done ==> Apply(r, s).pipe == r.pipe && Apply(r, s).phase == Done
  {
    match s
    case Feed(bytes) =>
      assert r.diff + r.pipe + (r.pending + bytes) == r.diff + r.pipe + r.pending + bytes;
    case Send(n) =>
      assert r.diff + (r.pipe + r.pending[..n]) + r.pending[n..] == r.diff + r.pipe + r.pending;
    case ChildRead(n) =>
      assert r.diff + r.pipe[..n] + r.pipe[n..] + r.pending == r.diff + r.pipe + r.pending;
    case FinalRead(n) =>
      assert r.diff + r.pipe[..n] + r.pipe[n..] + r.pending == r.diff + r.pipe + r.pending;
    case ChildAsk =>
    case ParentStop(_) =>
  }

  lemma {:induction false} RunConserves(r: Rewrite, steps: seq<Step>, last: Rewrite)
    requires Conserved(r) && IsRun(r, steps, last)
    ensures Conserved(last)
    decreases |steps|
  {
    if steps != [] {
      StepConserves(r, steps[0]);
      RunConserves(Apply(r, steps[0]), steps[1..], last);
    }
  }

  /** The file backgroundRewriteDoneHandler installs: the child's snapshot and diff, then the parent's blocks. */
  function Installed(snapshot: seq<Byte>, r: Rewrite): seq<Byte> {
    snapshot + r.diff + r.pending
  }

  /**
   However feeding, sending and reading interleaved: the installed file is the snapshot followed by
   everything fed since the fork if and only if the child's last read emptied the pipe.
   */
  lemma InstalledIsComplete(snapshot: seq<Byte>, steps: seq<Step>, r: Rewrite)
    requires IsRun(FORK, steps, r) && r.phase == Done
    ensures Installed(snapshot, r) == snapshot + r.fed <==> r.pipe == []
  {
    assert Conserved(FORK);
    RunConserves(FORK, steps, r);
    assert |Installed(snapshot, r)| == |snapshot| + |r.diff| + |r.pending|;
    if r.pipe == [] {
      assert r.diff + r.pipe + r.pending == r.diff + r.pending;
      assert snapshot + (r.diff + r.pending) == snapshot + r.diff + r.pending;
    }
  }

  /** A last read that reads until the pipe is empty, as aofReadDiffFromParent does unless read(2) fails, is enough. */
  lemma {:induction false} DrainedRunIsComplete(snapshot: seq<Byte>, before: seq<Step>, mid: Rewrite, after: seq<Step>, r: Rewrite)
    requires IsRun(FORK, before, mid) && mid.phase == Acked
    requires IsRun(Apply(mid, FinalRead(|mid.pipe|)), after, r)
    ensures Installed(snapshot, r) == snapshot + r.fed
  {
    assert Conserved(FORK);
    RunConserves(FORK, before, mid);
    StepConserves(mid, FinalRead(|mid.pipe|));
    DoneKeepsPipe(Apply(mid, FinalRead(|mid.pipe|)), after, r);
    assert r.diff + r.pipe + r.pending == r.diff + r.pending;
    assert snapshot + (r.diff + r.pending) == snapshot + r.diff + r.pending;
  }

  lemma {:induction false} DoneKeepsPipe(r: Rewrite, steps: seq<Step>, last: Rewrite)
    requires Conserved(r) && r.phase == Done && IsRun(r, steps, last)
    ensures Conserved(last) && last.phase == Done && last.pipe == r.pipe
    decreases |steps|
  {
    if steps != [] {
      StepConserves(r, steps[0]);
      DoneKeepsPipe(Apply(r, steps[0]), steps[1..], last);
    }
  }

  /** A last read that gives up early, as when read(2) is interrupted, loses what was in the pipe. */
  lemma EarlyReadLoses()
    ensures exists steps: seq<Step>, r :: IsRun(FORK, steps, r) && r.phase == Done && Installed([], r) != r.fed
  {
    var steps := [Feed([7]), Send(1), ChildAsk, ParentStop(true), FinalRead(0)];
    var r1 := Apply(FORK, steps[0]);
    var r2 := Apply(r1, steps[1]);
    var r3 := Apply(r2, steps[2]);
    var r4 := Apply(r3, steps[3]);
    var r5 := Apply(r4, steps[4]);
    assert IsRun(r5, steps[5..], r5);
    assert steps[4..][1..] == steps[5..] && IsRun(r4, steps[4..], r5);
    assert steps[3..][1..] == steps[4..] && IsRun(r3, steps[3..], r5);
    assert steps[2..][1..] == steps[3..] && IsRun(r2, steps[2..], r5);
    assert steps[1..][1..] == steps[2..] && IsRun(r1, steps[1..], r5);
    assert IsRun(FORK, steps, r5);
    assert r5.pipe == [7];
    InstalledIsComplete([], steps, r5);
    assert [] + r5.fed == r5.fed;
  }
}
