# IMF Virtual Track Fingerprint, modelled in Dafny

`imf_vtfp.py` computes the Virtual Track Fingerprint (VTFP) of one virtual
track of an IMF Composition Playlist (CPL). The computation has three steps:

1. It gathers the Resources of every Sequence whose TrackId is the requested
   track, in document order, ignoring Segment boundaries.
2. It merges them into a node list. A Resource *congruent* to the last node
   (same TrackFileId, EntryPoint and SourceDuration) adds its RepeatCount to
   that node. Otherwise, a Resource that *continues* the last node adds its
   SourceDuration to it. Any other Resource is appended. The merges change
   the parsed Resource objects themselves.
3. It feeds every node into one SHA-1 stream as a 40-octet block: the
   16 UUID octets, then EntryPoint, SourceDuration and RepeatCount as
   big-endian unsigned 64-bit integers.

The digest is shown as `urn:smpte:imf-vtfp:` followed by its first `n`
lowercase hexadecimal digits. The program can also list a playlist's tracks
as `"<TrackId> <TagName>"` strings.

The project has these modules, one per file:

- `Types` (`types.dfy`): octets, UUIDs, digests and the error kinds.
- `Packing` (`packing.dfy`): `struct.pack(">Q", v)` and its inverse.
- `Hexadecimal` (`hex.dfy`): `str.encode("hex")` and `str(uuid.UUID)`.
- `Clips` (`clips.dfy`):
  - the four fingerprinted properties of a Resource (`Clip`);
  - the two merge predicates;
  - `parse_uuid`;
  - reading a Resource element with its defaults.
- `Encoding` (`encoding.dfy`): the 40-octet blocks, the digest input and its decoder, and the SHA-1 object.
- `Canonical` (`canonical.dfy`): one merge step (`Step`) and the node list of a whole record list (`Canonicalize`), as pure functions.
- `Resources` (`resource.dfy`): the `Resource` class, whose fields the merge loop updates in place, and `update_digest`.
- `Vtfp` (`vtfp.dfy`): `create_imf_vtfp_for_track` as imperative code. The outer loop, the inner loop, the loop body and the hashing loop are methods. Each is proved against `Canonicalize` and `DigestInput`.
- `Urn` (`urn.dfy`): `format_imf_vtfp_urn` and the command line's width clamp.
- `Listing` (`listing.dfy`): `list_imf_cpl_tracks`.

Line 129 tests continuity as `EntryPoint + SourceDuration + 1 == rhs.EntryPoint`.
The comment above it (lines 116-124) describes contiguous regions instead,
and later revisions of the algorithm drop the `+ 1`. The two tests give
different fingerprints. Every operation therefore takes a `Continuity` rule:

- `Inclusive` is the code as written.
- `Adjacent` is the intended test.

The model never mixes the two in one computation.

Some descriptions of the algorithm differ from this code. In each case the
model follows the code:

- Nothing is cloned: merges change the parsed Resource objects, and the model proves which objects can change.
- A track with no Resources is not an error: the fingerprint is SHA-1 of the empty input.
- There are no stereoscopic Resources.
- The continuity test is the `+ 1` form above.

## Model

| member | source | states |
|---|---|---|
| Packing.PackU64 | imf_vtfp.py:134-136 | `struct.pack(">Q", v)` succeeds exactly when 0 <= v < 2^64, writes 8 octets, and fails with the packing error otherwise |
| Packing.PackU64Decodes | imf_vtfp.py:134-136 | the 8 octets written for a value that fits read back, big-endian, as that value |
| Packing.PackU64Onto | imf_vtfp.py:134-136 | every 8 octets are what the packing writes for the value they encode, so the field format wastes no octet string |
| Packing.BigEndianRoundTrip | imf_vtfp.py:134-136 | reading back the k big-endian octets of a value below 256^k gives the value |
| Packing.FromBigEndianRoundTrip | imf_vtfp.py:134-136 | writing the value that octets encode gives those octets back |
| Hexadecimal.Hex | imf_vtfp.py:224 | the hex text of an octet string has two lowercase hex digits per octet |
| Hexadecimal.Unhex | imf_vtfp.py:224 | the partner decoder: one octet per digit pair |
| Hexadecimal.HexRoundTrip | imf_vtfp.py:224 | the hex text decodes back to the digest octets |
| Hexadecimal.HexInjective | imf_vtfp.py:224 | different digests have different hex texts |
| Hexadecimal.HexConcat | imf_vtfp.py:224 | hex text is built octet by octet: the text of a concatenation is the concatenation of the texts |
| Hexadecimal.HexPrefix | imf_vtfp.py:224 | the first 2k digits are the text of the first k octets |
| Hexadecimal.UuidString | imf_vtfp.py:215 | `str(TrackId)` is 36 characters long |
| Hexadecimal.UuidStringShape | imf_vtfp.py:215 | `str(TrackId)` has hyphens at 8, 13, 18 and 23, lowercase hex digits elsewhere, and no space |
| Hexadecimal.UuidStringFields | imf_vtfp.py:215 | each hyphen-separated group is the hex text of its octets of the UUID |
| Hexadecimal.UuidStringInjective | imf_vtfp.py:215 | different TrackIds have different texts |
| Clips.IsContinuedBy | imf_vtfp.py:125-129 | continuation means the same TrackFileId, both RepeatCounts 1, and a start 2 units past the previous clip's last unit as written (1 under the intended rule); AdjacentMatchesDefinition and InclusiveRejectsContiguousRegion relate it to the comment at 116-124 |
| Clips.IsCongruentTo | imf_vtfp.py:108-114 | congruence is equality of everything but RepeatCount |
| Clips.CongruenceIsEquivalence | imf_vtfp.py:108-114 | congruence is reflexive, symmetric and transitive |
| Clips.BothEquivalencesHold | imf_vtfp.py:111-129 | a pair that is both congruent and a continuation has a degenerate SourceDuration (-1 as written, 0 under the intended rule) and both RepeatCounts equal to 1 |
| Clips.AdjacentMatchesDefinition | imf_vtfp.py:116-124 | under `Adjacent`, continuation is exactly the commented definition: same TrackFileId, both RepeatCounts 1, and the first edit unit is one past the previous clip's last |
| Clips.InclusiveRejectsContiguousRegion | imf_vtfp.py:125-129 | as written, a region contiguous with the previous one is never a continuation, and one that starts a unit later is |
| Clips.UuidText | imf_vtfp.py:76-78 | a leading `urn:uuid:` is removed once; any other text is passed on unchanged |
| Clips.ParseUuid | imf_vtfp.py:76-79 | `uuid.UUID` gets the text without a leading `urn:uuid:`, and any other text unchanged |
| Clips.UrnPrefixIsTransparent | imf_vtfp.py:76-79 | a UUID parses the same with and without the `urn:uuid:` prefix |
| Clips.PrefixStrippedOnlyAtStart | imf_vtfp.py:77-78 | `urn:uuid:` anywhere but at index 0 is left in the text handed to `uuid.UUID` |
| Clips.ReadResource | imf_vtfp.py:87-106 | Reading succeeds exactly when the duration can be found, TrackFileId is present, and its text parses. Then EntryPoint defaults to 0 and RepeatCount to 1, and a SourceDuration that is absent or 0 is replaced by IntrinsicDuration. Each of the three errors happens exactly in its own case, checked in the source's order. |
| Clips.IntrinsicDurationOnlyAsFallback | imf_vtfp.py:100-104 | IntrinsicDuration has no effect when SourceDuration is given and non-zero |
| Encoding.EncodeClip | imf_vtfp.py:132-136 | a node's block exists exactly when its three integers fit 64 bits; it is 40 octets and starts with the TrackFileId octets |
| Encoding.DecodeEncodedClip | imf_vtfp.py:132-136 | a block decodes back to its node, so the block format loses nothing |
| Encoding.EncodeDecodedClip | imf_vtfp.py:132-136 | every 40 octets are the block of the node they decode to |
| Encoding.DigestInput | imf_vtfp.py:200-202 | the hashed octets are 40 per node, and the only failure is the packing error |
| Encoding.DigestInputDefined | imf_vtfp.py:200-202 | the digest input exists exactly when every node's block does |
| Encoding.DigestInputBlock | imf_vtfp.py:200-202 | octets 40i to 40(i+1) of the digest input are the block of node i |
| Encoding.DigestInputSnoc | imf_vtfp.py:201-202 | the digest input of a list ends with the block of its last node |
| Encoding.DigestInputNext | imf_vtfp.py:201-202 | feeding node i extends the input of the first i nodes by node i's block |
| Encoding.DecodeStreamSnoc | imf_vtfp.py:200-202 | the decoder reads the last 40 octets as the last node |
| Encoding.DigestInputRoundTrip | imf_vtfp.py:200-202 | the node list can be read back from the hashed octets alone: no lengths or separators are needed |
| Encoding.DigestInputInjective | imf_vtfp.py:200-204 | different node lists give different SHA-1 inputs |
| Encoding.Sha1.constructor | imf_vtfp.py:200 | a new SHA-1 object has been fed nothing |
| Encoding.Sha1.Update | imf_vtfp.py:133-136 | `update` appends its octets to what was fed |
| Encoding.Sha1.Digest | imf_vtfp.py:204 | `md.digest()` is the SHA-1 function `hash` applied to every octet fed so far; it has no contract of its own, and HashNodes states what the hashing loop returns through it |
| Canonical.Step | imf_vtfp.py:188-198 | one pass of the loop body on values; it has no contract of its own, and StepEffect and StepOnLast state what it does |
| Canonical.StepEffect | imf_vtfp.py:188-198 | One merge step. Congruence is tested first. An absorbed record changes only the last node: its RepeatCount grows by the record's on congruence, its SourceDuration on continuation. The list does not grow. Any other record is appended unchanged. |
| Canonical.Canonicalize | imf_vtfp.py:182-198 | the node list is never longer than the records, is empty exactly when no record matched, and starts at the first record's TrackFileId and EntryPoint |
| Canonical.StepKeepsFront | imf_vtfp.py:188-198 | a step never shortens the list nor changes a node before the last |
| Canonical.FinishedNodesStay | imf_vtfp.py:188-198 | a node followed by another is final: it stays unchanged and in place in the full result |
| Canonical.TotalPlayTimeSnoc | imf_vtfp.py:188-198 | play time adds up over a list |
| Canonical.StepKeepsPlayTime | imf_vtfp.py:190-196 | each merge rule keeps the sum of SourceDuration × RepeatCount |
| Canonical.CanonicalizeKeepsPlayTime | imf_vtfp.py:184-198 | over the whole reduction, the nodes play as many edit units as the records: no input is lost |
| Canonical.CongruentRunCollapses | imf_vtfp.py:190-192 | a run of congruent records becomes one node whose RepeatCount is the run's total |
| Canonical.ChainEntryPoint | imf_vtfp.py:194-196 | each piece of a split clip starts at the first piece's EntryPoint plus the durations before it |
| Canonical.ChainDurationPositive | imf_vtfp.py:194-196 | a split clip with positive pieces has a positive total duration |
| Canonical.ChainCollapses | imf_vtfp.py:194-196 | under the intended rule, a clip split into contiguous pieces becomes the single whole clip |
| Canonical.InclusiveMisreadsSplitClip | imf_vtfp.py:129 | as written, a clip split into two contiguous pieces keeps both nodes, while pieces with a one-unit hole merge into one clip that plays the hole |
| Resources.Resource.constructor | imf_vtfp.py:87-106 | the new object holds exactly the given properties |
| Resources.Resource.Read | imf_vtfp.py:87-106 | `Resource(root)` builds a new object holding what ReadResource reads, or fails with ReadResource's error |
| Resources.Resource.UpdateDigest | imf_vtfp.py:132-136 | `update_digest` feeds exactly the node's block, and fails exactly when a field does not fit 64 bits |
| Vtfp.Values | imf_vtfp.py:184-198 | there is one value per Resource object |
| Vtfp.ValuesAt | imf_vtfp.py:184-198 | value i is the current state of object i |
| Vtfp.Track | imf_vtfp.py:184-186 | the Resources of the matching Sequences, concatenated in document order; it has no contract of its own, and TrackConcat, TrackPrefix, OtherTracksIgnored and TrackOfDistinct state its properties |
| Vtfp.TrackConcat | imf_vtfp.py:184-186 | a track's Resources over two parts of the playlist are those of each part in order |
| Vtfp.TrackPrefix | imf_vtfp.py:184-186 | the Resources of the first sequences come first in the track |
| Vtfp.OtherTracksIgnored | imf_vtfp.py:184-185 | a Sequence of another track contributes nothing, wherever it stands |
| Vtfp.TrackOfDistinct | imf_vtfp.py:151-152 | a track's Resources are objects of the playlist, and none appears twice |
| Vtfp.Fingerprint | imf_vtfp.py:175-204 | The fingerprint is SHA-1 of the digest input of the canonical nodes. It fails only with the packing error. An empty track gives SHA-1 of no octets. |
| Vtfp.FingerprintInputsDiffer | imf_vtfp.py:200-204 | tracks with different canonical nodes hash different inputs, so only a SHA-1 collision can give them one fingerprint |
| Vtfp.SplitClipSameFingerprint | imf_vtfp.py:184-198 | under the intended rule, splitting a clip into contiguous pieces does not change the fingerprint |
| Vtfp.CreateImfVtfpForTrack | imf_vtfp.py:175-204 | A bad track id fails. Otherwise the result is the `Fingerprint` of the track's original Resource values. The node objects hold the canonical list and are objects of the track. Every other object of the playlist keeps its values. |
| Vtfp.MergeTrack | imf_vtfp.py:182-198 | the nodes are distinct objects of the track, their values are the canonical list of the track's original values, and no other object changed |
| Vtfp.MergeSequences | imf_vtfp.py:184-198 | after the outer loop, the merge state covers every Resource of the track |
| Vtfp.MergeSequence | imf_vtfp.py:186-198 | the inner loop advances the merge state by one Sequence's Resources |
| Vtfp.PresentResource | imf_vtfp.py:186-198 | presenting record k moves the merge state from k records to k + 1 |
| Vtfp.MergeResource | imf_vtfp.py:188-198 | the loop body leaves the list or appends the present object, and the node values are one `Step` past the old ones |
| Vtfp.HashNodes | imf_vtfp.py:200-204 | the hashing loop returns SHA-1 of the digest input of the node values, or the packing error exactly when a field does not fit; it changes no node |
| Vtfp.PrefixSlice | imf_vtfp.py:184-186 | a sequence's Resources sit in the track right after those of the sequences before it |
| Vtfp.NotYetPresented | imf_vtfp.py:186-198 | no Resource not yet presented is a node |
| Vtfp.CanonicalizeNext | imf_vtfp.py:186-198 | presenting record k is one `Step` |
| Vtfp.PresentedNodes | imf_vtfp.py:186-198 | the present Resource is not a node yet, and the nodes stay distinct objects already presented |
| Vtfp.ValuesSnoc | imf_vtfp.py:198 | appending an object appends its value |
| Vtfp.LastNodeApart | imf_vtfp.py:189 | `node_list[-1]` is no other node, so changing it changes no other node's values |
| Vtfp.StepOnLast | imf_vtfp.py:188-198 | a step on a non-empty list checks the last node for congruence, then for continuation, else appends |
| Urn.Take | imf_vtfp.py:224 | `[:n]` gives a prefix: min(n, length) characters for n >= 0, and all but the last -n for n < 0 |
| Urn.FormatImfVtfpUrn | imf_vtfp.py:220-224 | the URN is the prefix followed by lowercase digits that start the digest's hex text; for n >= 0 there are min(n, 40) of them |
| Urn.UrnWidthMonotone | imf_vtfp.py:224 | for n <= m the n-digit URN is a prefix of the m-digit one |
| Urn.UrnDigitsDecode | imf_vtfp.py:224 | the digits of a 2k-wide URN decode to the first k digest octets, and the full-width ones to the whole digest |
| Urn.NegativeWidthCountsFromEnd | imf_vtfp.py:224 | a negative width -k gives the (40 - k)-digit URN; from -40 down, only the prefix |
| Urn.ClampWidth | imf_vtfp.py:246 | the command line's width is between 2 and 40 and equals the requested one when that is in range |
| Urn.ClampedUrnLength | imf_vtfp.py:220-224 | the URN printed with a clamped width, or with the default 10, carries exactly that many digits |
| Listing.TrackEntry | imf_vtfp.py:215 | an entry is 37 characters longer than the tag name and has a space at index 36, after the 36-character id |
| Listing.ListImfCplTracks | imf_vtfp.py:207-217 | every Sequence's entry is listed |
| Listing.ListedEntriesComeFromSequences | imf_vtfp.py:214-215 | nothing else is listed: every entry is the entry of some Sequence |
| Listing.TrackEntryFields | imf_vtfp.py:215 | an entry is the 36-character id, a space, then the tag name; two sequences share an entry exactly when their id and kind are equal |
| Listing.ListingSnoc | imf_vtfp.py:214-215 | each Sequence adds its own entry and nothing else |
| Listing.ListingSize | imf_vtfp.py:207-217 | there are never more entries than Sequences |
| Listing.RepeatedTrackListedOnce | imf_vtfp.py:212-217 | a Sequence whose id and kind are already listed adds no entry |
| Listing.TrackIsListed | imf_vtfp.py:207-217 | every track with Resources to fingerprint is listed under its id |

## Left out

- XML parsing is not part of this model. This covers the `ElementTree` walks, namespace lookup, `split_tag` and the `Sequence` and `CompositionPlaylist` constructors (lines 26-36, 139-172). The model takes the parsed Sequences as input: a track id, a tag name and the Resource objects.
- The TrackId of a Sequence is already a parsed UUID. Its `parse_uuid` failure at line 154 belongs to parsing.
- `IterableProperties` (lines 39-73) is not modelled. Its attributes are the fields of `Clip`, `Resource` and `Sequence`.
- `setup_cpl_document` (lines 228-237) is left out. It does file I/O and changes a global namespace map.
- The command line (lines 241-263) is left out, apart from its width clamp at line 246 (`ClampWidth`).
- `uuid.UUID` text parsing is the function parameter `decode`. SHA-1 is the function parameter `hash`. Only the octets fed to the `hashlib` object are modelled.
- Clips.ReadResource: `int()` parsing of element text is not modelled. The element's integers arrive already parsed.
- Clips.ReadResource: exception kinds are lumped together. A missing IntrinsicDuration element (AttributeError) and one without text (ValueError) are both `MissingIntrinsicDuration`.
- Vtfp.CreateImfVtfpForTrack requires that no Resource object appears twice in the playlist. The parser makes a new object per Resource element. An aliased playlist would merge one object into itself, and the model does not cover it.
- Vtfp.CreateImfVtfpForTrack: the playlist it is given stands for one fresh parse and is meant to be used once. The source parses the playlist inside the call (line 180), so its in-place merges are never seen by a caller. In the model the merges stay in the caller's objects, and a second call on the same playlist would start from merged values; the contract of each call is stated over the values the call found.
- Vtfp.CreateImfVtfpForTrack takes the playlist already parsed. The source parses the playlist before the track id, so playlist errors come first. That ordering is not modelled.
- Vtfp.HashNodes: after a packing error, the model returns the error and does not describe what the SHA-1 object was fed. The source drops that object with the exception.

## Findings

| source | as written | input that shows it | evidently intended | confidence | as-written member | corrected member |
|---|---|---|---|---|---|---|
| imf_vtfp.py:129 | `self.EntryPoint + self.SourceDuration + 1 == rhs.EntryPoint` | Two pieces of one clip are `(u, EntryPoint 0, SourceDuration 10, RepeatCount 1)` and `(u, 10, 5, 1)`. They are contiguous by the comment at lines 122-124, yet they stay two nodes. `(u, 0, 10, 1)` followed by `(u, 11, 5, 1)` leaves unit 10 unplayed, yet it merges into `(u, 0, 15, 1)`, which plays unit 10. | `self.EntryPoint + self.SourceDuration == rhs.EntryPoint` (the `Adjacent` rule) | not executed; the comment and later revisions of the algorithm agree on the intended form | Clips.InclusiveRejectsContiguousRegion, Canonical.InclusiveMisreadsSplitClip | Clips.AdjacentMatchesDefinition, Canonical.ChainCollapses, Vtfp.SplitClipSameFingerprint |
