/** Value types shared by every part of the fingerprint model. */
module Types {

  /** An octet, as produced by `struct.pack` and `UUID.bytes`. */
  type byte = x: int | 0 <= x < 256

  /** The 16 octets of a UUID (`UUID.bytes`, most significant octet first). */
  type Uuid = s: seq<byte> | |s| == 16 witness seq(16, _ => 0)

  /** Length in octets of a SHA-1 digest. */
  const DIGEST_LENGTH: nat := 20

  /** A SHA-1 digest (`hashlib.sha1().digest()`). */
  type Digest = s: seq<byte> | |s| == DIGEST_LENGTH witness seq(20, _ => 0)

  /** The exceptions the modelled code can raise. */
  datatype Error =
    | MissingIntrinsicDuration  // SourceDuration is 0 and IntrinsicDuration is missing or empty
    | MissingTrackFileId        // the Resource element has no TrackFileId child
    | MalformedUuid             // `uuid.UUID` rejects the text
    | PackOutOfRange            // `struct.pack(">Q", v)` with v outside 0 .. 2^64 - 1

  datatype Option<+T> = None | Some(value: T)

  datatype Result<+T> = Ok(value: T) | Err(error: Error)
}
