/**
 * The canonical node list of a virtual track: one pass over its resources
 * that folds each one into the previous node when the two are congruent
 * (RepeatCount adds up) or when the second continues the first
 * (SourceDuration adds up), and appends it otherwise.
 */
module Canonical {
  import opened Types
  import opened Clips

  function Last(nodes: seq<Clip>): Clip
    requires nodes != []
  {
    nodes[|nodes| - 1]
  }

  /** Whether `c` is folded into the previous node instead of being appended. */
  predicate Absorbs(rule: Continuity, nodes: seq<Clip>, c: Clip) {
    nodes != [] && (IsCongruentTo(Last(nodes), c) || IsContinuedBy(rule, Last(nodes), c))
  }

  /**
   * One iteration of the merge loop: the node list after `c` is presented.
   * Congruence is tested first.
   */
  function Step(rule: Continuity, nodes: seq<Clip>, c: Clip): seq<Clip> {
    if nodes == [] then [c]
    else
      var previous := Last(nodes);
      if IsCongruentTo(previous, c) then
        nodes[..|nodes| - 1] + [previous.(repeatCount := previous.repeatCount + c.repeatCount)]
      else if IsContinuedBy(rule, previous, c) then
        nodes[..|nodes| - 1] + [previous.(sourceDuration := previous.sourceDuration + c.sourceDuration)]
      else
        nodes + [c]
  }

  /**
   * What a step does: a record that is absorbed changes one field of the
   * last node (RepeatCount on congruence, SourceDuration on continuation)
   * and nothing else; any other record is appended as a new node.
   */
  lemma StepEffect(rule: Continuity, nodes: seq<Clip>, c: Clip)
    ensures var r := Step(rule, nodes, c);
      && |r| == (if Absorbs(rule, nodes, c) then |nodes| else |nodes| + 1)
      && (nodes != [] ==> r[..|nodes| - 1] == nodes[..|nodes| - 1])
      && (!Absorbs(rule, nodes, c) ==> r == nodes + [c])
      && (Absorbs(rule, nodes, c) ==>
            Last(r).trackFileId == Last(nodes).trackFileId && Last(r).entryPoint == Last(nodes).entryPoint)
      && (nodes != [] && IsCongruentTo(Last(nodes), c) ==>
            Last(r).sourceDuration == Last(nodes).sourceDuration
            && Last(r).repeatCount == Last(nodes).repeatCount + c.repeatCount)
      && (nodes != [] && !IsCongruentTo(Last(nodes), c) && IsContinuedBy(rule, Last(nodes), c) ==>
            Last(r).repeatCount == 1
            && Last(r).sourceDuration == Last(nodes).sourceDuration + c.sourceDuration
            && LastEditUnit(Last(r)) == LastEditUnit(c) - (if rule == Inclusive then 1 else 0))
  {
  }

  /** The node list the merge loop leaves after presenting every record of `cs` in order. */
  function Canonicalize(rule: Continuity, cs: seq<Clip>): (r: seq<Clip>)
    ensures |r| <= |cs|
    ensures r == [] <==> cs == []
    ensures cs != [] ==> r[0].trackFileId == cs[0].trackFileId && r[0].entryPoint == cs[0].entryPoint
  {
    if cs == [] then [] else Step(rule, Canonicalize(rule, cs[..|cs| - 1]), cs[|cs| - 1])
  }

  /** A step never shortens the list nor touches any node but the last. */
  lemma StepKeepsFront(rule: Continuity, q: seq<Clip>, c: Clip, m: nat)
    requires m < |q|
    ensures |q| <= |Step(rule, q, c)|
    ensures Step(rule, q, c)[..m] == q[..m]
  {
    var r := Step(rule, q, c);
    assert q[..|q| - 1] == r[..|q| - 1];
    assert q[..m] == q[..|q| - 1][..m];
    assert r[..m] == r[..|q| - 1][..m];
  }

  /**
   * Nodes are final once another follows them: every node but the last of
   * any prefix's result stays, unchanged and in place, in the full result.
   */
  lemma {:induction false} FinishedNodesStay(rule: Continuity, cs: seq<Clip>, k: nat)
    requires k <= |cs|
    ensures |Canonicalize(rule, cs[..k])| <= |Canonicalize(rule, cs)|
    ensures Canonicalize(rule, cs[..k]) != [] ==>
      Canonicalize(rule, cs[..k])[..|Canonicalize(rule, cs[..k])| - 1] <= Canonicalize(rule, cs)
  {
    var n := |cs|;
    if k == n {
      assert cs[..k] == cs;
    } else {
      var front := cs[..n - 1];
      assert front[..k] == cs[..k];
      FinishedNodesStay(rule, front, k);
      var p, q := Canonicalize(rule, cs[..k]), Canonicalize(rule, front);
      assert Canonicalize(rule, cs) == Step(rule, q, cs[n - 1]);
      if p != [] {
        StepKeepsFront(rule, q, cs[n - 1], |p| - 1);
        assert p[..|p| - 1] == q[..|p| - 1];
      } else if q != [] {
        StepKeepsFront(rule, q, cs[n - 1], 0);
      }
    }
  }

  /** Edit units a node plays: its duration times its repeat count. */
  function PlayTime(c: Clip): int {
    c.sourceDuration * c.repeatCount
  }

  function TotalPlayTime(cs: seq<Clip>): int {
    if cs == [] then 0 else TotalPlayTime(cs[..|cs| - 1]) + PlayTime(cs[|cs| - 1])
  }

  lemma TotalPlayTimeSnoc(cs: seq<Clip>, c: Clip)
    ensures TotalPlayTime(cs + [c]) == TotalPlayTime(cs) + PlayTime(c)
  {
    assert (cs + [c])[..|cs|] == cs;
  }

  /** Both merge rules keep the play time: folding `c` in adds exactly what `c` plays. */
  lemma StepKeepsPlayTime(rule: Continuity, nodes: seq<Clip>, c: Clip)
    ensures TotalPlayTime(Step(rule, nodes, c)) == TotalPlayTime(nodes) + PlayTime(c)
  {
    if nodes == [] {
      TotalPlayTimeSnoc(nodes, c);
    } else {
      var front, previous := nodes[..|nodes| - 1], Last(nodes);
      assert nodes == front + [previous];
      TotalPlayTimeSnoc(front, previous);
      if IsCongruentTo(previous, c) {
        var merged := previous.(repeatCount := previous.repeatCount + c.repeatCount);
        TotalPlayTimeSnoc(front, merged);
        assert PlayTime(merged) == PlayTime(previous) + PlayTime(c) by {
          assert c.sourceDuration == previous.sourceDuration;
          assert previous.sourceDuration * (previous.repeatCount + c.repeatCount)
              == previous.sourceDuration * previous.repeatCount + previous.sourceDuration * c.repeatCount;
        }
      } else if IsContinuedBy(rule, previous, c) {
        var merged := previous.(sourceDuration := previous.sourceDuration + c.sourceDuration);
        TotalPlayTimeSnoc(front, merged);
      } else {
        TotalPlayTimeSnoc(nodes, c);
      }
    }
  }

  /** No input is lost: the canonical nodes play exactly as many edit units as the records. */
  lemma {:induction false} CanonicalizeKeepsPlayTime(rule: Continuity, cs: seq<Clip>)
    ensures TotalPlayTime(Canonicalize(rule, cs)) == TotalPlayTime(cs)
  {
    if cs != [] {
      CanonicalizeKeepsPlayTime(rule, cs[..|cs| - 1]);
      StepKeepsPlayTime(rule, Canonicalize(rule, cs[..|cs| - 1]), cs[|cs| - 1]);
    }
  }

  function TotalRepeatCount(cs: seq<Clip>): int {
    if cs == [] then 0 else TotalRepeatCount(cs[..|cs| - 1]) + cs[|cs| - 1].repeatCount
  }

  function TotalSourceDuration(cs: seq<Clip>): int {
    if cs == [] then 0 else TotalSourceDuration(cs[..|cs| - 1]) + cs[|cs| - 1].sourceDuration
  }

  /** A run of congruent records becomes one node whose RepeatCount is the sum of theirs. */
  lemma {:induction false} CongruentRunCollapses(rule: Continuity, cs: seq<Clip>)
    requires cs != []
    requires forall i :: 0 <= i < |cs| ==> IsCongruentTo(cs[0], cs[i])
    ensures Canonicalize(rule, cs) == [cs[0].(repeatCount := TotalRepeatCount(cs))]
  {
    var n := |cs|;
    if n > 1 {
      var front := cs[..n - 1];
      assert front[0] == cs[0];
      CongruentRunCollapses(rule, front);
      assert IsCongruentTo(cs[0], cs[n - 1]);
    }
  }

  /**
   * Records that each start where the previous one ends (same track file,
   * played once, positive durations) are one clip split at edit boundaries.
   */
  predicate IsChain(cs: seq<Clip>) {
    cs != []
    && (forall i :: 0 <= i < |cs| ==>
          cs[i].trackFileId == cs[0].trackFileId && cs[i].repeatCount == 1 && cs[i].sourceDuration > 0)
    && (forall i :: 0 < i < |cs| ==> cs[i].entryPoint == cs[i - 1].entryPoint + cs[i - 1].sourceDuration)
  }

  lemma {:induction false} ChainEntryPoint(cs: seq<Clip>)
    requires IsChain(cs)
    ensures cs[|cs| - 1].entryPoint == cs[0].entryPoint + TotalSourceDuration(cs[..|cs| - 1])
  {
    var n := |cs|;
    if n > 1 {
      var front := cs[..n - 1];
      ChainEntryPoint(front);
      assert front[..n - 2] == cs[..n - 2];
      assert front[n - 2] == cs[n - 2];
    }
  }

  lemma {:induction false} ChainDurationPositive(cs: seq<Clip>)
    requires IsChain(cs)
    ensures TotalSourceDuration(cs) > 0
  {
    if |cs| > 1 {
      ChainDurationPositive(cs[..|cs| - 1]);
    }
  }

  /**
   * Under the `Adjacent` rule a clip split anywhere into contiguous pieces
   * canonicalises to the single unsplit clip, so segmentation does not
   * change the fingerprint.
   */
  lemma {:induction false} ChainCollapses(cs: seq<Clip>)
    requires IsChain(cs)
    ensures Canonicalize(Adjacent, cs) == [cs[0].(sourceDuration := TotalSourceDuration(cs))]
  {
    var n := |cs|;
    if n > 1 {
      var front := cs[..n - 1];
      assert IsChain(front) by {
        forall i | 0 < i < |front|
          ensures front[i].entryPoint == front[i - 1].entryPoint + front[i - 1].sourceDuration
        {
          assert front[i] == cs[i] && front[i - 1] == cs[i - 1];
        }
      }
      ChainCollapses(front);
      ChainEntryPoint(cs);
      ChainDurationPositive(front);
      var merged := cs[0].(sourceDuration := TotalSourceDuration(front));
      assert !IsCongruentTo(merged, cs[n - 1]);
      assert IsContinuedBy(Adjacent, merged, cs[n - 1]);
    }
  }

  /**
   * As written (`Inclusive`), a clip split into two contiguous pieces keeps
   * both pieces, while two pieces with a one-unit hole between them are
   * merged into the clip that plays the hole.
   */
  lemma InclusiveMisreadsSplitClip(u: Uuid)
    ensures Canonicalize(Inclusive, [Clip(u, 0, 10, 1), Clip(u, 10, 5, 1)])
         == [Clip(u, 0, 10, 1), Clip(u, 10, 5, 1)]
    ensures Canonicalize(Inclusive, [Clip(u, 0, 10, 1), Clip(u, 11, 5, 1)])
         == [Clip(u, 0, 15, 1)]
         == Canonicalize(Inclusive, [Clip(u, 0, 15, 1)])
    ensures Canonicalize(Adjacent, [Clip(u, 0, 10, 1), Clip(u, 10, 5, 1)]) == [Clip(u, 0, 15, 1)]
  {
    assert [Clip(u, 0, 10, 1), Clip(u, 10, 5, 1)][..1] == [Clip(u, 0, 10, 1)];
    assert [Clip(u, 0, 10, 1), Clip(u, 11, 5, 1)][..1] == [Clip(u, 0, 10, 1)];
  }
}
