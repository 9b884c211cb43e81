/**
 * The virtual track fingerprint of one track of a composition playlist:
 * the playlist's sequences, the resources a track id selects, the merge
 * loop over them and the SHA-1 stream fed with the resulting nodes, and
 * the listing of the playlist's tracks.
 */
module Vtfp {
  import opened Types
  import opened Clips
  import opened Encoding
  import opened Canonical
  import opened Resources

  /** `Sequence`: a track id, the element's tag name and its Resource objects, in document order. */
  datatype Sequence = Sequence(trackId: Uuid, tagName: string, resourceList: seq<Resource>)

  /** Every Resource object of the playlist, sequence after sequence. */
  function AllResources(cpl: seq<Sequence>): seq<Resource> {
    if cpl == [] then []
    else AllResources(cpl[..|cpl| - 1]) + cpl[|cpl| - 1].resourceList
  }

  /**
   * The resources of virtual track `id`: the resource lists of the sequences
   * whose TrackId is `id`, concatenated in document order; segment
   * boundaries play no part.
   */
  function Track(cpl: seq<Sequence>, id: Uuid): seq<Resource> {
    if cpl == [] then []
    else
      var s := cpl[|cpl| - 1];
      Track(cpl[..|cpl| - 1], id) + (if s.trackId == id then s.resourceList else [])
  }

  /** The parser makes a new object for every Resource element: no object occurs twice. */
  predicate Distinct(rs: seq<Resource>) {
    forall i, j :: 0 <= i < j < |rs| ==> rs[i] != rs[j]
  }

  /** The current properties of a list of Resource objects. */
  function Values(rs: seq<Resource>): (vs: seq<Clip>)
    reads rs
    ensures |vs| == |rs|
  {
    if rs == [] then [] else Values(rs[..|rs| - 1]) + [rs[|rs| - 1].Value()]
  }

  /** Entry i of the values is the current value of object i. */
  lemma {:induction false} ValuesAt(rs: seq<Resource>)
    ensures forall i :: 0 <= i < |rs| ==> Values(rs)[i] == rs[i].Value()
  {
    if rs != [] {
      ValuesAt(rs[..|rs| - 1]);
    }
  }

  lemma {:induction false} TrackConcat(a: seq<Sequence>, b: seq<Sequence>, id: Uuid)
    ensures Track(a + b, id) == Track(a, id) + Track(b, id)
  {
    if b == [] {
      assert a + b == a;
    } else {
      var n := |b|;
      assert (a + b)[..|a + b| - 1] == a + b[..n - 1];
      TrackConcat(a, b[..n - 1], id);
    }
  }

  /** The resources of the first sequences come first in the track. */
  lemma TrackPrefix(cpl: seq<Sequence>, t: nat, id: Uuid)
    requires t <= |cpl|
    ensures Track(cpl[..t], id) <= Track(cpl, id)
  {
    TrackConcat(cpl[..t], cpl[t..], id);
    assert cpl == cpl[..t] + cpl[t..];
  }

  /** Sequences of other tracks contribute nothing, wherever they stand. */
  lemma OtherTracksIgnored(a: seq<Sequence>, s: Sequence, b: seq<Sequence>, id: Uuid)
    requires s.trackId != id
    ensures Track(a + [s] + b, id) == Track(a + b, id)
  {
    TrackConcat(a + [s], b, id);
    TrackConcat(a, [s], id);
    TrackConcat(a, b, id);
    assert [s][..0] == [];
  }

  /** A track takes objects of the playlist, and no object twice when the playlist has none twice. */
  lemma {:induction false} TrackOfDistinct(cpl: seq<Sequence>, id: Uuid)
    ensures forall x :: x in Track(cpl, id) ==> x in AllResources(cpl)
    ensures Distinct(AllResources(cpl)) ==> Distinct(Track(cpl, id))
  {
    if cpl != [] {
      var front, s := cpl[..|cpl| - 1], cpl[|cpl| - 1];
      TrackOfDistinct(front, id);
      var a, t := AllResources(front), Track(front, id);
      var l := s.resourceList;
      assert AllResources(cpl) == a + l;
      if Distinct(a + l) {
        assert Distinct(a) by {
          forall i, j | 0 <= i < j < |a| ensures a[i] != a[j] {
            assert a[i] == (a + l)[i] && a[j] == (a + l)[j];
          }
        }
        if s.trackId == id {
          var tl := t + l;
          forall i, j | 0 <= i < j < |tl| ensures tl[i] != tl[j] {
            if j < |t| {
              assert tl[i] == t[i] && tl[j] == t[j];
            } else if i >= |t| {
              assert tl[i] == (a + l)[|a| + i - |t|] && tl[j] == (a + l)[|a| + j - |t|];
            } else {
              assert tl[i] in a;
              var m :| 0 <= m < |a| && a[m] == tl[i];
              assert tl[i] == (a + l)[m] && tl[j] == (a + l)[|a| + j - |t|];
            }
          }
        }
      }
    }
  }

  /**
   * The value `create_imf_vtfp_for_track` returns for a track whose
   * resources hold `clips`: SHA-1 (`hash`) of the digest input of the
   * canonical node list.
   */
  function Fingerprint(rule: Continuity, clips: seq<Clip>, hash: seq<byte> -> Digest): (r: Result<Digest>)
    ensures r.Ok? <==> DigestInput(Canonicalize(rule, clips)).Ok?
    ensures r.Ok? ==> r.value == hash(DigestInput(Canonicalize(rule, clips)).value)
    ensures r.Err? ==> r.error == PackOutOfRange
    ensures clips == [] ==> r == Ok(hash([]))
  {
    match DigestInput(Canonicalize(rule, clips))
    case Err(e) => Err(e)
    case Ok(bytes) => Ok(hash(bytes))
  }

  /**
   * Only a clash of SHA-1 outputs can give two tracks with different
   * canonical node lists the same fingerprint: their hashed inputs differ.
   */
  lemma FingerprintInputsDiffer(rule: Continuity, x: seq<Clip>, y: seq<Clip>)
    requires DigestInput(Canonicalize(rule, x)).Ok?
    requires Canonicalize(rule, x) != Canonicalize(rule, y)
    ensures DigestInput(Canonicalize(rule, x)) != DigestInput(Canonicalize(rule, y))
  {
    if DigestInput(Canonicalize(rule, x)) == DigestInput(Canonicalize(rule, y)) {
      DigestInputInjective(Canonicalize(rule, x), Canonicalize(rule, y));
    }
  }

  /** Under `Adjacent`, a clip split into contiguous pieces has the fingerprint of the whole clip. */
  lemma SplitClipSameFingerprint(cs: seq<Clip>, hash: seq<byte> -> Digest)
    requires IsChain(cs)
    ensures Fingerprint(Adjacent, cs, hash)
         == Fingerprint(Adjacent, [cs[0].(sourceDuration := TotalSourceDuration(cs))], hash)
  {
    ChainCollapses(cs);
    var whole := cs[0].(sourceDuration := TotalSourceDuration(cs));
    assert [whole][..0] == [];
    assert Canonicalize(Adjacent, [whole]) == [whole];
  }

  /**
   * `create_imf_vtfp_for_track`: parses the track id, merges the track's
   * resources into the node list and hashes the nodes. The nodes are the
   * parsed Resource objects themselves, so a merge changes the playlist's
   * objects. `decode` stands for `uuid.UUID`, `hash` for SHA-1; the ghost
   * `nodes` are the objects left in the node list.
   */
  method CreateImfVtfpForTrack(
    cpl: seq<Sequence>, trackIdText: string, decode: string -> Option<Uuid>,
    rule: Continuity, hash: seq<byte> -> Digest)
    returns (r: Result<Digest>, ghost nodes: seq<Resource>)
    requires Distinct(AllResources(cpl))
    modifies AllResources(cpl)
    ensures ParseUuid(trackIdText, decode).None? ==> r == Err(MalformedUuid) && nodes == []
    ensures ParseUuid(trackIdText, decode).Some? ==>
      var id := ParseUuid(trackIdText, decode).value;
      && r == Fingerprint(rule, old(Values(Track(cpl, id))), hash)
      && Values(nodes) == Canonicalize(rule, old(Values(Track(cpl, id))))
      && (forall x :: x in nodes ==> x in Track(cpl, id))
    ensures forall s, x :: 0 <= s < |cpl| && x in cpl[s].resourceList && x !in nodes ==> x.Value() == old(x.Value())
  {
    var parsed := ParseUuid(trackIdText, decode);
    if parsed.None? {
      r, nodes := Err(MalformedUuid), [];
    } else {
      var trackId := parsed.value;
      TrackOfDistinct(cpl, trackId);
      ghost var before := Values(Track(cpl, trackId));
      var nodeList := MergeTrack(cpl, trackId, rule);
      r := HashNodes(nodeList, hash);
      nodes := nodeList;
      assert r == Fingerprint(rule, before, hash);
    }
  }

  /**
   * The state of the merge loop after the first `k` resources of the track
   * (`input`, whose values were `before`) were presented: the nodes are
   * distinct objects among them, their values are the canonical list of
   * those records, and every other object still holds its original values.
   */
  ghost predicate MergedUpTo(
    rule: Continuity, nodeList: seq<Resource>, input: seq<Resource>, before: seq<Clip>, k: nat)
    reads input, nodeList
  {
    k <= |input| == |before|
    && Distinct(nodeList) && (forall x :: x in nodeList ==> x in input[..k])
    && Values(nodeList) == Canonicalize(rule, before[..k])
    && forall j :: 0 <= j < |input| && input[j] !in nodeList ==> input[j].Value() == before[j]
  }

  /**
   * The body of the inner loop together with what it keeps: presenting
   * record `k` moves the merge loop's state from `k` to `k + 1`.
   */
  method PresentResource(
    rule: Continuity, nodeList: seq<Resource>, present: Resource,
    ghost input: seq<Resource>, ghost before: seq<Clip>, ghost k: nat)
    returns (nodeList': seq<Resource>)
    requires Distinct(input) && k < |input| && present == input[k]
    requires MergedUpTo(rule, nodeList, input, before, k)
    modifies set x | x in input
    ensures MergedUpTo(rule, nodeList', input, before, k + 1)
  {
    PresentedNodes(input, nodeList, k);
    nodeList' := MergeResource(rule, nodeList, present);
    forall j | 0 <= j < |input| && input[j] !in nodeList' ensures input[j].Value() == before[j] {
      assert input[j] !in nodeList && old(input[j].Value()) == before[j];
    }
    assert Values(nodeList') == Canonicalize(rule, before[..k + 1]) by {
      CanonicalizeNext(rule, before, k);
    }
  }

  /**
   * The inner loop of `create_imf_vtfp_for_track`: presents the resources
   * of one sequence, records `k` to `k + |list| - 1` of the track, in order.
   */
  method MergeSequence(
    rule: Continuity, nodeList: seq<Resource>, list: seq<Resource>,
    ghost input: seq<Resource>, ghost before: seq<Clip>, ghost k: nat)
    returns (nodeList': seq<Resource>, ghost presented: nat)
    requires Distinct(input) && k + |list| <= |input|
    requires forall i :: 0 <= i < |list| ==> list[i] == input[k + i]
    requires MergedUpTo(rule, nodeList, input, before, k)
    modifies set x | x in input
    ensures presented == k + |list| && MergedUpTo(rule, nodeList', input, before, presented)
  {
    nodeList' := nodeList;
    presented := k;
    for i := 0 to |list|
      invariant presented == k + i
      invariant MergedUpTo(rule, nodeList', input, before, presented)
    {
      nodeList' := PresentResource(rule, nodeList', list[i], input, before, presented);
      presented := presented + 1;
    }
  }

  /**
   * `create_imf_vtfp_for_track`'s merge of one track: the node values are
   * the canonical list of the resources' values, and only objects left in
   * the node list have changed.
   */
  method MergeTrack(cpl: seq<Sequence>, trackId: Uuid, rule: Continuity) returns (nodeList: seq<Resource>)
    requires Distinct(Track(cpl, trackId))
    modifies set x | x in Track(cpl, trackId)
    ensures Distinct(nodeList) && forall x :: x in nodeList ==> x in Track(cpl, trackId)
    ensures Values(nodeList) == Canonicalize(rule, old(Values(Track(cpl, trackId))))
    ensures forall s, x :: 0 <= s < |cpl| && x in cpl[s].resourceList && x !in nodeList ==> x.Value() == old(x.Value())
  {
    ghost var input := Track(cpl, trackId);
    ghost var before := Values(input);
    ValuesAt(input);
    nodeList := MergeSequences(cpl, trackId, rule, input, before);
    assert before[..|input|] == before;
    assert input[..|input|] == input;
    forall s, x | 0 <= s < |cpl| && x in cpl[s].resourceList && x !in nodeList
      ensures x.Value() == old(x.Value())
    {
      if x in input {
        var j :| 0 <= j < |input| && input[j] == x;
      }
    }
  }

  /**
   * The outer loop of `create_imf_vtfp_for_track`: the sequences of the
   * playlist in document order, those of the track each merged into the
   * node list, starting from an empty one.
   */
  method MergeSequences(
    cpl: seq<Sequence>, trackId: Uuid, rule: Continuity, ghost input: seq<Resource>, ghost before: seq<Clip>)
    returns (nodeList: seq<Resource>)
    requires input == Track(cpl, trackId) && Distinct(input)
    requires |before| == |input| && forall j :: 0 <= j < |input| ==> input[j].Value() == before[j]
    modifies set x | x in input
    ensures MergedUpTo(rule, nodeList, input, before, |input|)
  {
    nodeList := [];
    ghost var k: nat := 0;
    for s := 0 to |cpl|
      invariant k == |Track(cpl[..s], trackId)| && Track(cpl[..s], trackId) <= input
      invariant MergedUpTo(rule, nodeList, input, before, k)
    {
      TrackPrefix(cpl, s + 1, trackId);
      assert cpl[..s + 1][..s] == cpl[..s];
      var sequence := cpl[s];
      if trackId == sequence.trackId {
        PrefixSlice(Track(cpl[..s], trackId), sequence.resourceList, input, k);
        nodeList, k := MergeSequence(rule, nodeList, sequence.resourceList, input, before, k);
      } else {
        assert Track(cpl[..s + 1], trackId) == Track(cpl[..s], trackId);
      }
    }
    assert cpl[..|cpl|] == cpl;
  }

  /**
   * The hashing loop of `create_imf_vtfp_for_track`: one SHA-1 stream fed
   * with every node's block in order, or the `struct.pack` error of the
   * first node that does not fit. Changes no node.
   */
  method HashNodes(nodeList: seq<Resource>, hash: seq<byte> -> Digest) returns (r: Result<Digest>)
    ensures r.Ok? <==> DigestInput(Values(nodeList)).Ok?
    ensures r.Ok? ==> r.value == hash(DigestInput(Values(nodeList)).value)
    ensures r.Err? ==> r.error == PackOutOfRange
  {
    ghost var nodes := Values(nodeList);
    ValuesAt(nodeList);
    var md := new Sha1();
    r := Ok(hash([]));
    var i := 0;
    while i < |nodeList|
      invariant 0 <= i <= |nodeList|
      invariant r.Ok? ==> DigestInput(nodes[..i]) == Ok(md.fed)
      invariant r.Err? ==> r == Err(PackOutOfRange) && DigestInput(nodes).Err?
      invariant r.Err? ==> i == |nodeList|
    {
      assert nodeList[i].Value() == nodes[i];
      var ok := nodeList[i].UpdateDigest(md);
      if ok {
        DigestInputNext(nodes, i);
        i := i + 1;
      } else {
        DigestInputDefined(nodes);
        r, i := Err(PackOutOfRange), |nodeList|;
      }
    }
    if r.Ok? {
      assert nodes[..|nodeList|] == nodes;
      r := Ok(md.Digest(hash));
    }
  }

  /** The second part of a prefix sits right after the first in the whole. */
  lemma PrefixSlice(a: seq<Resource>, b: seq<Resource>, whole: seq<Resource>, k: nat)
    requires a + b <= whole && k == |a|
    ensures k + |b| <= |whole| && forall i :: 0 <= i < |b| ==> b[i] == whole[k + i]
  {
    forall i | 0 <= i < |b| ensures b[i] == whole[k + i] {
      assert b[i] == (a + b)[|a| + i];
    }
  }

  /** An object not presented yet is not among the nodes, so no merge has touched it. */
  lemma NotYetPresented(input: seq<Resource>, nodeList: seq<Resource>, k: nat)
    requires Distinct(input) && k < |input|
    requires forall x :: x in nodeList ==> x in input[..k]
    ensures forall j :: k <= j < |input| ==> input[j] !in nodeList
  {
    forall j, x | k <= j < |input| && x in nodeList ensures x != input[j] {
      var m :| 0 <= m < k && input[m] == x;
    }
  }

  /** The node list after presenting record `k` of `cs` is one `Step` past the list before it. */
  lemma CanonicalizeNext(rule: Continuity, cs: seq<Clip>, k: nat)
    requires k < |cs|
    ensures Canonicalize(rule, cs[..k + 1]) == Step(rule, Canonicalize(rule, cs[..k]), cs[k])
  {
    assert cs[..k + 1][..k] == cs[..k];
  }

  /** Presenting record `k` keeps the nodes distinct objects taken from the records presented so far. */
  lemma PresentedNodes(input: seq<Resource>, nodeList: seq<Resource>, k: nat)
    requires Distinct(input) && k < |input|
    requires Distinct(nodeList) && forall x :: x in nodeList ==> x in input[..k]
    ensures input[k] !in nodeList && Distinct(nodeList + [input[k]])
    ensures forall x :: x in nodeList + [input[k]] ==> x in input[..k + 1]
    ensures forall x :: x in nodeList ==> x in input
  {
    assert input == input[..k] + input[k..];
    NotYetPresented(input, nodeList, k);
    assert input[..k + 1] == input[..k] + [input[k]];
  }

  /** The values of a list of objects end with the value of its last object. */
  lemma ValuesSnoc(front: seq<Resource>, last: Resource)
    ensures Values(front + [last]) == Values(front) + [last.Value()]
  {
    assert (front + [last])[..|front|] == front;
  }

  /** The last node of a list of distinct objects is not among the others. */
  lemma LastNodeApart(nodeList: seq<Resource>)
    requires Distinct(nodeList) && nodeList != []
    ensures var n := |nodeList|;
      && nodeList == nodeList[..n - 1] + [nodeList[n - 1]]
      && nodeList[n - 1] !in nodeList[..n - 1]
      && Values(nodeList) == Values(nodeList[..n - 1]) + [nodeList[n - 1].Value()]
  {
    var n := |nodeList|;
    var front, previous := nodeList[..n - 1], nodeList[n - 1];
    assert nodeList == front + [previous];
    forall i | 0 <= i < n - 1 ensures front[i] != previous {
      assert front[i] == nodeList[i];
    }
    ValuesSnoc(front, previous);
  }

  /** A step on a non-empty list, written out against its last node. */
  lemma StepOnLast(rule: Continuity, front: seq<Clip>, p: Clip, c: Clip)
    ensures Step(rule, front + [p], c) ==
      if IsCongruentTo(p, c) then front + [p.(repeatCount := p.repeatCount + c.repeatCount)]
      else if IsContinuedBy(rule, p, c) then front + [p.(sourceDuration := p.sourceDuration + c.sourceDuration)]
      else front + [p] + [c]
  {
    assert (front + [p])[..|front|] == front;
  }

  /**
   * The body of the inner loop: merges `present` into the last node
   * (congruence first, then continuation), changing that object in place,
   * or appends it. The new node values are one `Step` past the old ones.
   */
  method MergeResource(rule: Continuity, nodeList: seq<Resource>, present: Resource)
    returns (nodeList': seq<Resource>)
    requires Distinct(nodeList) && present !in nodeList
    modifies nodeList
    ensures nodeList' == nodeList || nodeList' == nodeList + [present]
    ensures Values(nodeList') == Step(rule, old(Values(nodeList)), old(present.Value()))
  {
    if nodeList == [] {
      nodeList' := [present];
      ValuesSnoc(nodeList, present);
    } else {
      var previous := nodeList[|nodeList| - 1];
      ghost var front := nodeList[..|nodeList| - 1];
      LastNodeApart(nodeList);
      StepOnLast(rule, Values(front), previous.Value(), present.Value());
      if IsCongruentTo(previous.Value(), present.Value()) {
        previous.repeatCount := previous.repeatCount + present.repeatCount;
        ValuesSnoc(front, previous);
        nodeList' := nodeList;
      } else if IsContinuedBy(rule, previous.Value(), present.Value()) {
        previous.sourceDuration := previous.sourceDuration + present.sourceDuration;
        ValuesSnoc(front, previous);
        nodeList' := nodeList;
      } else {
        nodeList' := nodeList + [present];
        ValuesSnoc(nodeList, present);
      }
    }
  }
}
