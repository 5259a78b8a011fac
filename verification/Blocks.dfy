/**
  Where the block reader keeps its code points (util/toml.hpp, utf8_reader and utf8_buffered_reader),
  and what a pointer to the previous code point reads once the block it points into has been refilled.
 */
module Blocks {
  import opened Utf8
  import opened Utf8Reader

  /** How many bytes of the source end with a code point. */
  function ByteEnd(doc: seq<Scalar>, i: nat): (n: nat)
    requires i < |doc|
    ensures n > 0
  {
    EncodeAppend(doc[..i], [doc[i]]);
    assert doc[..i + 1] == doc[..i] + [doc[i]];
    assert [doc[i]][1..] == [];
    |EncodeAll(doc[..i + 1])|
  }

  /** The block whose bytes complete a code point. */
  function BlockOf(doc: seq<Scalar>, i: nat): nat
    requires i < |doc|
  {
    (ByteEnd(doc, i) - 1) / BLOCK_CAPACITY
  }

  /** The first code point of a code point's block. */
  function FirstOfBlock(doc: seq<Scalar>, i: nat): (f: nat)
    requires i < |doc|
    ensures f <= i
  {
    if i > 0 && BlockOf(doc, i - 1) == BlockOf(doc, i) then FirstOfBlock(doc, i - 1) else i
  }

  /** What a slot of the reader's buffer holds while a code point's block is loaded: slots that the block does not fill
      are zero. */
  function SlotReads(doc: seq<Scalar>, i: nat, slot: nat): Scalar
    requires i < |doc|
  {
    var j := FirstOfBlock(doc, i) + slot;
    if j < |doc| && BlockOf(doc, j) == BlockOf(doc, i) then doc[j] else 0
  }

  /** A code point that begins a block, read when the one before it is no longer replayed from the ring: the pointer
      to that one now points into the new block. */
  predicate Refilled(doc: seq<Scalar>, k: nat, head: nat) {
    0 < k < |doc| && head <= k - 1 && BlockOf(doc, k - 1) != BlockOf(doc, k)
  }

  /** What the pointer to the code point before k reads when the cursor is at k. Code points before the head are
      replayed from the ring; from the head on they are the reader's own slots. */
  function PrevReads(doc: seq<Scalar>, k: nat, head: nat): Scalar
    requires 0 < k <= |doc|
  {
    if Refilled(doc, k, head) then SlotReads(doc, k, k - 1 - FirstOfBlock(doc, k - 1)) else doc[k - 1]
  }

  // ---------------------------------------------------------------------------------------
  // These are the reader's blocks
  // ---------------------------------------------------------------------------------------

  lemma {:induction false} BytesOfChars(vs: seq<Scalar>)
    ensures Bytes(CharsOf(vs)) == EncodeAll(vs)
  {
    if vs != [] {
      var n := |vs| - 1;
      assert vs == vs[..n] + [vs[n]] && [vs[n]][1..] == [];
      EncodeAppend(vs[..n], [vs[n]]);
      assert CharsOf(vs)[..n] == CharsOf(vs[..n]);
      BytesOfChars(vs[..n]);
    }
  }

  lemma EndsGrow(doc: seq<Scalar>, i: nat, j: nat)
    requires i < j <= |doc|
    ensures ByteEnd(doc, i) <= |EncodeAll(doc[..j])|
  {
    assert doc[..j] == doc[..i + 1] + doc[i + 1..j];
    EncodeAppend(doc[..i + 1], doc[i + 1..j]);
  }

  lemma CharsOfPrefix(doc: seq<Scalar>)
    ensures Decode(EncodeAll(doc)).out == CharsOf(doc)
  {
    EncodeThenDecode(doc);
    ReferenceIsRfc3629(EncodeAll(doc));
  }

  /** A code point is delivered from the first bytes of a source exactly if its bytes end there; so its block is the
      one that the block reader decodes it from. */
  lemma BlocksAreTheReaders(doc: seq<Scalar>, i: nat, n: nat)
    requires i < |doc| && n <= |EncodeAll(doc)|
    ensures i < |Decode(EncodeAll(doc)[..n]).out| <==> ByteEnd(doc, i) <= n
  {
    var source := EncodeAll(doc);
    if ByteEnd(doc, i) <= n {
      CompleteIsDelivered(doc, i, n);
    }
    if i < |Decode(source[..n]).out| {
      DeliveredIsComplete(doc, i, n);
    }
  }

  lemma CompleteIsDelivered(doc: seq<Scalar>, i: nat, n: nat)
    requires i < |doc| && ByteEnd(doc, i) <= n <= |EncodeAll(doc)|
    ensures i < |Decode(EncodeAll(doc)[..n]).out|
  {
    var source, front := EncodeAll(doc), doc[..i + 1];
    assert doc == front + doc[i + 1..];
    EncodeAppend(front, doc[i + 1..]);
    assert source[..n][..ByteEnd(doc, i)] == EncodeAll(front);
    DecodePrefix(source[..n], ByteEnd(doc, i));
    CharsOfPrefix(front);
  }

  lemma DeliveredIsComplete(doc: seq<Scalar>, i: nat, n: nat)
    requires i < |doc| && n <= |EncodeAll(doc)| && i < |Decode(EncodeAll(doc)[..n]).out|
    ensures ByteEnd(doc, i) <= n
  {
    var source := EncodeAll(doc);
    var part := Decode(source[..n]);
    DecodePrefix(source, n);
    CharsOfPrefix(doc);
    EncodeThenDecode(doc);
    ReferenceIsRfc3629(source);
    RawBytesAreKept(source, n);
    var j := |part.out|;
    assert part.out == CharsOf(doc[..j]);
    BytesOfChars(doc[..j]);
    EndsGrow(doc, i, j);
  }

  // ---------------------------------------------------------------------------------------
  // Blocks of ASCII characters
  // ---------------------------------------------------------------------------------------

  predicate Plain(doc: seq<Scalar>) { forall i :: 0 <= i < |doc| ==> doc[i] < 0x80 }

  lemma {:induction false} PlainLength(doc: seq<Scalar>)
    requires Plain(doc)
    ensures |EncodeAll(doc)| == |doc|
  {
    if doc != [] {
      var n := |doc| - 1;
      assert doc == doc[..n] + [doc[n]] && [doc[n]][1..] == [];
      EncodeAppend(doc[..n], [doc[n]]);
      PlainLength(doc[..n]);
    }
  }

  /** ASCII characters fill blocks of 32. */
  lemma {:induction false} PlainBlocks(doc: seq<Scalar>, i: nat)
    requires i < |doc| && Plain(doc)
    ensures BlockOf(doc, i) == i / 32
    ensures FirstOfBlock(doc, i) == i / 32 * 32
  {
    PlainLength(doc[..i + 1]);
    if i > 0 {
      PlainBlocks(doc, i - 1);
    }
  }
}
