/** The incremental content reader: a bounded read of the bytes a file holds between two
    offsets. The stream wrapper around it only forwards chunks, so its content is a slice. */
module Reader {

  newtype byte = x: int | 0 <= x < 256

  /** The bytes a read stream opened at offset `start` with inclusive end `end - 1` yields
      from a file whose contents are `contents`: it stops at `end` or at the end of the file,
      whichever comes first, and yields nothing when it starts at or beyond either. */
  function ReadRange(contents: seq<byte>, start: nat, end: nat): (r: seq<byte>)
    ensures start < end && start < |contents| ==>
      |r| == (if end <= |contents| then end else |contents|) - start
    ensures end <= start || |contents| <= start ==> r == []
    ensures forall i :: 0 <= i < |r| ==> r[i] == contents[start + i]
    ensures start <= end <= |contents| ==> r == contents[start..end]
  {
    var stop := if end <= |contents| then end else |contents|;
    if start < stop then contents[start..stop] else []
  }

  /** Two reads over adjacent ranges together yield the read over the joined range: a reader
      that resumes where the previous one stopped neither skips nor repeats a byte. */
  lemma ReadRangeAdjacent(contents: seq<byte>, a: nat, b: nat, d: nat)
    requires a <= b <= d
    ensures ReadRange(contents, a, b) + ReadRange(contents, b, d) == ReadRange(contents, a, d)
  {
    var left, right, whole := ReadRange(contents, a, b), ReadRange(contents, b, d), ReadRange(contents, a, d);
    assert |left + right| == |whole|;
    forall i | 0 <= i < |whole|
      ensures (left + right)[i] == whole[i]
    {
      if i < |left| {
        assert (left + right)[i] == left[i];
      } else {
        assert (left + right)[i] == right[i - |left|];
      }
    }
  }

  /** A read that ends within a prefix of the file sees the same bytes once the file has grown:
      bytes already written are not changed by an append. */
  lemma ReadRangeOfPrefix(contents: seq<byte>, grown: seq<byte>, start: nat, end: nat)
    requires contents <= grown
    requires end <= |contents|
    ensures ReadRange(contents, start, end) == ReadRange(grown, start, end)
  {
    if start < end {
      assert contents[start..end] == grown[start..end];
    }
  }

  /** Reading a grown file from the old length to the new one yields exactly the appended
      bytes. */
  lemma ReadRangeYieldsAppended(before: seq<byte>, after: seq<byte>)
    requires before <= after
    ensures before + ReadRange(after, |before|, |after|) == after
  {
    assert after == after[..|before|] + after[|before|..];
  }
}
