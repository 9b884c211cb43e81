/**
 * The octets the fingerprint hashes: one fixed 40-octet block per node
 * (`Resource.update_digest`), fed in order into one SHA-1 stream.
 */
module Encoding {
  import opened Types
  import opened Packing
  import opened Clips

  /** Octets per node: the UUID and three 64-bit fields. */
  const BLOCK_LENGTH: nat := 40

  /**
   * `update_digest`'s octets for one node: TrackFileId, then EntryPoint,
   * SourceDuration and RepeatCount as big-endian unsigned 64-bit integers.
   * Fails as `struct.pack` does when one of the three is out of range.
   */
  function EncodeClip(c: Clip): (r: Result<seq<byte>>)
    ensures r.Ok? <==> InU64(c.entryPoint) && InU64(c.sourceDuration) && InU64(c.repeatCount)
    ensures r.Err? ==> r.error == PackOutOfRange
    ensures r.Ok? ==> |r.value| == BLOCK_LENGTH && r.value[..16] == c.trackFileId
  {
    match PackU64(c.entryPoint)
    case Err(e) => Err(e)
    case Ok(ep) =>
      match PackU64(c.sourceDuration)
      case Err(e) => Err(e)
      case Ok(sd) =>
        match PackU64(c.repeatCount)
        case Err(e) => Err(e)
        case Ok(rc) =>
          Ok(c.trackFileId + ep + sd + rc)
  }

  /** Reads one 40-octet block back into the node it encodes. */
  function DecodeClip(block: seq<byte>): Clip
    requires |block| == BLOCK_LENGTH
  {
    Clip(block[..16], FromBigEndian(block[16..24]), FromBigEndian(block[24..32]), FromBigEndian(block[32..40]))
  }

  /** A block identifies its node: decoding it gives the node back. */
  lemma DecodeEncodedClip(c: Clip)
    requires EncodeClip(c).Ok?
    ensures DecodeClip(EncodeClip(c).value) == c
  {
    var block := EncodeClip(c).value;
    var ep, sd, rc := PackU64(c.entryPoint).value, PackU64(c.sourceDuration).value, PackU64(c.repeatCount).value;
    assert block == c.trackFileId + ep + sd + rc;
    assert block[16..24] == ep && block[24..32] == sd && block[32..40] == rc;
    PackU64Decodes(c.entryPoint);
    PackU64Decodes(c.sourceDuration);
    PackU64Decodes(c.repeatCount);
  }

  /** Every 40 octets are the block of exactly one node. */
  lemma EncodeDecodedClip(block: seq<byte>)
    requires |block| == BLOCK_LENGTH
    ensures EncodeClip(DecodeClip(block)) == Ok(block)
  {
    PackU64Onto(block[16..24]);
    PackU64Onto(block[24..32]);
    PackU64Onto(block[32..40]);
    assert block == block[..16] + block[16..24] + block[24..32] + block[32..40];
  }

  /** The whole input of the digest: every node's block, in order, or the first packing error. */
  function DigestInput(nodes: seq<Clip>): (r: Result<seq<byte>>)
    ensures r.Ok? ==> |r.value| == BLOCK_LENGTH * |nodes|
    ensures r.Err? ==> r.error == PackOutOfRange
  {
    if nodes == [] then Ok([])
    else
      match DigestInput(nodes[..|nodes| - 1])
      case Err(e) => Err(e)
      case Ok(front) =>
        match EncodeClip(nodes[|nodes| - 1])
        case Err(e) => Err(e)
        case Ok(block) => Ok(front + block)
  }

  /** The digest input exists exactly when every node's fields fit 64 bits. */
  lemma {:induction false} DigestInputDefined(nodes: seq<Clip>)
    ensures DigestInput(nodes).Ok? <==> forall i :: 0 <= i < |nodes| ==> EncodeClip(nodes[i]).Ok?
  {
    if nodes != [] {
      DigestInputDefined(nodes[..|nodes| - 1]);
    }
  }

  /** Block i of the digest input is the encoding of node i. */
  lemma {:induction false} DigestInputBlock(nodes: seq<Clip>, i: nat)
    requires DigestInput(nodes).Ok? && i < |nodes|
    ensures EncodeClip(nodes[i]).Ok?
    ensures DigestInput(nodes).value[BLOCK_LENGTH * i..BLOCK_LENGTH * (i + 1)] == EncodeClip(nodes[i]).value
  {
    var n := |nodes|;
    var front := DigestInput(nodes[..n - 1]).value;
    if i < n - 1 {
      DigestInputBlock(nodes[..n - 1], i);
      assert BLOCK_LENGTH * (i + 1) <= |front| == BLOCK_LENGTH * (n - 1);
    }
  }

  /** Splits a digest input back into its nodes, 40 octets at a time from the end. */
  function DecodeStream(bytes: seq<byte>): seq<Clip> {
    if |bytes| < BLOCK_LENGTH then []
    else DecodeStream(bytes[..|bytes| - BLOCK_LENGTH]) + [DecodeClip(bytes[|bytes| - BLOCK_LENGTH..])]
  }

  /** The digest input of a non-empty list ends with the block of its last node. */
  lemma DigestInputSnoc(nodes: seq<Clip>)
    requires nodes != [] && DigestInput(nodes).Ok?
    ensures DigestInput(nodes[..|nodes| - 1]).Ok? && EncodeClip(nodes[|nodes| - 1]).Ok?
    ensures DigestInput(nodes).value
         == DigestInput(nodes[..|nodes| - 1]).value + EncodeClip(nodes[|nodes| - 1]).value
  {
  }

  /** Extending the list by one node extends the digest input by that node's block. */
  lemma DigestInputNext(nodes: seq<Clip>, i: nat)
    requires i < |nodes| && DigestInput(nodes[..i]).Ok? && EncodeClip(nodes[i]).Ok?
    ensures DigestInput(nodes[..i + 1]) == Ok(DigestInput(nodes[..i]).value + EncodeClip(nodes[i]).value)
  {
    assert nodes[..i + 1][..i] == nodes[..i];
  }

  lemma DecodeStreamSnoc(front: seq<byte>, block: seq<byte>)
    requires |block| == BLOCK_LENGTH
    ensures DecodeStream(front + block) == DecodeStream(front) + [DecodeClip(block)]
  {
    var all := front + block;
    assert all[..|all| - BLOCK_LENGTH] == front;
    assert all[|all| - BLOCK_LENGTH..] == block;
  }

  /**
   * The encoding needs no lengths or separators: the node list can be read
   * back from the octets alone, so different node lists hash different inputs.
   */
  lemma {:induction false} DigestInputRoundTrip(nodes: seq<Clip>)
    requires DigestInput(nodes).Ok?
    ensures DecodeStream(DigestInput(nodes).value) == nodes
  {
    if nodes != [] {
      var n := |nodes|;
      var init := nodes[..n - 1];
      DigestInputSnoc(nodes);
      var front, block := DigestInput(init).value, EncodeClip(nodes[n - 1]).value;
      calc {
        DecodeStream(DigestInput(nodes).value);
        DecodeStream(front + block);
        { DecodeStreamSnoc(front, block); }
        DecodeStream(front) + [DecodeClip(block)];
        { DigestInputRoundTrip(init); DecodeEncodedClip(nodes[n - 1]); }
        init + [nodes[n - 1]];
        nodes;
      }
    }
  }

  /** Different node lists give different digest inputs. */
  lemma DigestInputInjective(a: seq<Clip>, b: seq<Clip>)
    requires DigestInput(a).Ok? && DigestInput(a) == DigestInput(b)
    ensures a == b
  {
    DigestInputRoundTrip(a);
    DigestInputRoundTrip(b);
  }

  /**
   * A `hashlib.sha1()` object. Only what was fed to it is modelled; the
   * digest itself is the given hash function applied to those octets.
   */
  class Sha1 {
    var fed: seq<byte>

    constructor ()
      ensures fed == []
    {
      fed := [];
    }

    /** `md.update(data)`. */
    method Update(data: seq<byte>)
      modifies this
      ensures fed == old(fed) + data
    {
      fed := fed + data;
    }

    /** `md.digest()`, for the SHA-1 function `hash`. */
    function Digest(hash: seq<byte> -> Types.Digest): Types.Digest
      reads this
    {
      hash(fed)
    }
  }
}
