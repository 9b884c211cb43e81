/**
 * `list_imf_cpl_tracks`: the virtual tracks of a playlist, one text entry
 * per distinct pair of track id and sequence kind.
 */
module Listing {
  import opened Types
  import opened Hexadecimal
  import opened Vtfp

  /** `" ".join((str(sequence.TrackId), sequence.TagName))`. */
  function TrackEntry(s: Sequence): (e: string)
    ensures |e| == 37 + |s.tagName| && e[36] == ' '
  {
    UuidString(s.trackId) + " " + s.tagName
  }

  /** `list_imf_cpl_tracks`: the set of entries of every sequence of the playlist. */
  function ListImfCplTracks(cpl: seq<Sequence>): (entries: set<string>)
    ensures forall s :: s in cpl ==> TrackEntry(s) in entries
  {
    set s | s in cpl :: TrackEntry(s)
  }

  /** Nothing else is listed: every entry is the entry of some sequence. */
  lemma ListedEntriesComeFromSequences(cpl: seq<Sequence>)
    ensures forall e :: e in ListImfCplTracks(cpl) ==> exists s :: s in cpl && e == TrackEntry(s)
  {
  }

  /**
   * An entry reads back as its track id and tag name: the 36 characters of
   * the id, a space, then the tag. Two sequences share an entry exactly when
   * they have the same track id and the same kind.
   */
  lemma TrackEntryFields(s: Sequence, t: Sequence)
    ensures TrackEntry(s)[..36] == UuidString(s.trackId) && TrackEntry(s)[36] == ' '
    ensures TrackEntry(s)[37..] == s.tagName
    ensures TrackEntry(s) == TrackEntry(t) <==> s.trackId == t.trackId && s.tagName == t.tagName
  {
    var e := TrackEntry(s);
    assert e[..36] == UuidString(s.trackId) && e[37..] == s.tagName;
    if e == TrackEntry(t) {
      assert TrackEntry(t)[..36] == UuidString(t.trackId) && TrackEntry(t)[37..] == t.tagName;
      UuidStringInjective(s.trackId, t.trackId);
    }
  }

  /** Adding a sequence adds at most its own entry. */
  lemma ListingSnoc(cpl: seq<Sequence>, s: Sequence)
    ensures ListImfCplTracks(cpl + [s]) == ListImfCplTracks(cpl) + {TrackEntry(s)}
  {
    assert forall t :: t in cpl + [s] <==> t in cpl || t == s;
  }

  /** There are never more entries than sequences. */
  lemma {:induction false} ListingSize(cpl: seq<Sequence>)
    ensures |ListImfCplTracks(cpl)| <= |cpl|
  {
    if cpl != [] {
      var front := cpl[..|cpl| - 1];
      assert cpl == front + [cpl[|cpl| - 1]];
      ListingSize(front);
      ListingSnoc(front, cpl[|cpl| - 1]);
    }
  }

  /** A sequence whose track and kind are already listed adds no entry. */
  lemma RepeatedTrackListedOnce(cpl: seq<Sequence>, s: Sequence, i: nat)
    requires i < |cpl| && cpl[i].trackId == s.trackId && cpl[i].tagName == s.tagName
    ensures ListImfCplTracks(cpl + [s]) == ListImfCplTracks(cpl)
  {
    ListingSnoc(cpl, s);
    assert cpl[i] in cpl && TrackEntry(s) == TrackEntry(cpl[i]);
  }

  /** Every track that has resources to fingerprint is listed, under its id. */
  lemma {:induction false} TrackIsListed(cpl: seq<Sequence>, id: Uuid)
    requires Track(cpl, id) != []
    ensures exists e :: e in ListImfCplTracks(cpl) && e[..37] == UuidString(id) + " "
  {
    var n := |cpl|;
    var front, s := cpl[..n - 1], cpl[n - 1];
    assert cpl == front + [s];
    ListingSnoc(front, s);
    if s.trackId == id {
      var e := TrackEntry(s);
      assert e[..37] == UuidString(id) + " ";
      assert e in ListImfCplTracks(cpl);
    } else {
      TrackIsListed(front, id);
    }
  }
}
