/** From block writes to a firmware image: which bytes a set of distinct blocks leaves in an erased partition. */
module FirmwareImage {
  import opened Common
  import opened FlashWriter
  import opened FlashWriterRuns

  function BlockCount(size: nat): nat {
    (size + BLOCK - 1) / BLOCK
  }

  /** Block `k` of the image: 4096 bytes, except that the last block ends with the image. */
  function Chunk(image: seq<Byte>, k: nat): seq<Byte>
    requires k < BlockCount(|image|)
  {
    image[k * BLOCK..Min(|image|, (k + 1) * BLOCK)]
  }

  /** The blocks written carry distinct blocks of the image, in any order. */
  predicate CarriesImage(image: seq<Byte>, blocks: seq<Turn>) {
    && (forall i :: 0 <= i < |blocks| ==> blocks[i].cmd.WriteBlock?)
    && (forall i :: 0 <= i < |blocks| ==>
          blocks[i].cmd.blockNum < BlockCount(|image|) && blocks[i].cmd.data == Chunk(image, blocks[i].cmd.blockNum))
    && (forall i, j :: 0 <= i < j < |blocks| ==> blocks[i].cmd.blockNum != blocks[j].cmd.blockNum)
  }

  predicate Received(blocks: seq<Turn>, k: nat)
    requires forall i :: 0 <= i < |blocks| ==> blocks[i].cmd.WriteBlock?
  {
    exists i :: 0 <= i < |blocks| && blocks[i].cmd.blockNum == k
  }

  function PaddedImage(image: seq<Byte>, i: nat): Byte {
    if i < |image| then image[i] else 0
  }

  lemma {:induction false} ReceivedLast(blocks: seq<Turn>, k: nat)
    requires blocks != []
    requires forall i :: 0 <= i < |blocks| ==> blocks[i].cmd.WriteBlock?
    ensures var n := |blocks| - 1;
            Received(blocks, k) <==> Received(blocks[..n], k) || blocks[n].cmd.blockNum == k
  {
    var n := |blocks| - 1;
    if i :| 0 <= i < |blocks| && blocks[i].cmd.blockNum == k && i < n {
      assert blocks[..n][i].cmd.blockNum == k;
    }
  }

  lemma {:induction false} ChunkByte(image: seq<Byte>, k: nat, i: nat)
    requires k < BlockCount(|image|)
    requires k * BLOCK <= i < k * BLOCK + BLOCK
    ensures Padded(Chunk(image, k), i - k * BLOCK) == PaddedImage(image, i)
  {
  }

  lemma {:induction false} NotReceivedBefore(image: seq<Byte>, blocks: seq<Turn>)
    requires blocks != []
    requires CarriesImage(image, blocks)
    ensures !Received(blocks[..|blocks| - 1], blocks[|blocks| - 1].cmd.blockNum)
  {
  }

  /** Every byte of a received block is the zero-padded image; every other byte is still erased. */
  lemma {:induction false} ReceivedBlocksAreInFlash(image: seq<Byte>, blocks: seq<Turn>, capacity: nat, i: nat)
    requires CarriesImage(image, blocks)
    requires i < capacity
    ensures ProgramAll(ErasedPartition(capacity), blocks)[i] ==
            if Received(blocks, i / BLOCK) then PaddedImage(image, i) else ERASED
    decreases |blocks|
  {
    if blocks != [] {
      var n := |blocks| - 1;
      var pre := blocks[..n];
      var num, data := blocks[n].cmd.blockNum, blocks[n].cmd.data;
      ReceivedBlocksAreInFlash(image, pre, capacity, i);
      ReceivedLast(blocks, i / BLOCK);
      var before := ProgramAll(ErasedPartition(capacity), pre);
      assert ProgramAll(ErasedPartition(capacity), blocks) == ProgramBlock(before, num, data);
      hide ProgramAll, Received, Chunk;
      if i / BLOCK == num {
        NotReceivedBefore(image, blocks);
        ChunkByte(image, num, i);
        ProgramErased(Padded(data, i - BLOCK * num));
      }
    }
  }

  predicate Distinct(nums: seq<nat>) {
    forall i, j :: 0 <= i < j < |nums| ==> nums[i] != nums[j]
  }

  lemma {:induction false} DistinctBelowCount(nums: seq<nat>, below: set<nat>)
    requires Distinct(nums)
    requires forall i :: 0 <= i < |nums| ==> nums[i] in below
    ensures |nums| <= |below|
  {
    if nums != [] {
      var n := |nums| - 1;
      DistinctBelowCount(nums[..n], below - {nums[n]});
    }
  }

  function Range(n: nat): (r: set<nat>)
    ensures |r| == n
    ensures forall k :: k in r <==> 0 <= k < n
  {
    if n == 0 then {} else Range(n - 1) + {n - 1}
  }

  /** Pigeonhole: n distinct numbers below n are all of them. */
  lemma {:induction false} DistinctNumbersCover(nums: seq<nat>, k: nat)
    requires Distinct(nums)
    requires forall i :: 0 <= i < |nums| ==> nums[i] < |nums|
    requires k < |nums|
    ensures k in nums
  {
    if k !in nums {
      DistinctBelowCount(nums, Range(|nums|) - {k});
    }
  }

  /** As many distinct blocks as the image has are all of its blocks. */
  lemma {:induction false} AllBlocksReceived(image: seq<Byte>, blocks: seq<Turn>, k: nat)
    requires CarriesImage(image, blocks)
    requires |blocks| == BlockCount(|image|)
    requires k < |blocks|
    ensures Received(blocks, k)
  {
    var nums: seq<nat> := seq(|blocks|, i requires 0 <= i < |blocks| => blocks[i].cmd.blockNum);
    DistinctNumbersCover(nums, k);
    var i :| 0 <= i < |nums| && nums[i] == k;
    assert blocks[i].cmd.blockNum == k;
  }

  lemma {:induction false} LengthOfReceivedBlocks(image: seq<Byte>, blocks: seq<Turn>)
    requires CarriesImage(image, blocks)
    requires image != []
    ensures var n := BlockCount(|image|);
            TotalLength(blocks) == BLOCK * |blocks| - (if Received(blocks, n - 1) then n * BLOCK - |image| else 0)
    decreases |blocks|
  {
    var n := BlockCount(|image|);
    if blocks != [] {
      var m := |blocks| - 1;
      var pre := blocks[..m];
      LengthOfReceivedBlocks(image, pre);
      var num := blocks[m].cmd.blockNum;
      assert |Chunk(image, num)| == if num == n - 1 then |image| - num * BLOCK else BLOCK;
      ReceivedLast(blocks, n - 1);
      NotReceivedBefore(image, blocks);
    }
  }

  /** The zero-padded image at the start of the partition, everything beyond it erased. */
  function ImagePartition(image: seq<Byte>, capacity: nat): seq<Byte> {
    seq(capacity, i requires 0 <= i < capacity =>
      if i < BlockCount(|image|) * BLOCK then PaddedImage(image, i) else ERASED)
  }

  lemma {:induction false} AllBlocksMakeTheImage(image: seq<Byte>, blocks: seq<Turn>, capacity: nat)
    requires CarriesImage(image, blocks)
    requires |blocks| == BlockCount(|image|) > 0
    ensures ProgramAll(ErasedPartition(capacity), blocks) == ImagePartition(image, capacity)
    ensures TotalLength(blocks) == |image|
  {
    var n := |blocks|;
    AllBlocksReceived(image, blocks, n - 1);
    LengthOfReceivedBlocks(image, blocks);
    forall i | 0 <= i < capacity
      ensures ProgramAll(ErasedPartition(capacity), blocks)[i] == ImagePartition(image, capacity)[i]
    {
      ReceivedBlocksAreInFlash(image, blocks, capacity, i);
      if i < n * BLOCK {
        AllBlocksReceived(image, blocks, i / BLOCK);
      } else {
        assert !Received(blocks, i / BLOCK);
      }
    }
  }
}
