/**
 * The values a CPL Resource element carries into the fingerprint: how they
 * are read with their defaults, and the two equivalences the canonicaliser
 * merges by.
 */
module Clips {
  import opened Types

  /** The state of one Resource: its four fingerprinted properties. */
  datatype Clip = Clip(trackFileId: Uuid, entryPoint: int, sourceDuration: int, repeatCount: int)

  /**
   * Which edit unit a continuation must start at. `Inclusive` is the test
   * the program makes (`EntryPoint + SourceDuration + 1`); `Adjacent` is the
   * region that starts right after the previous one ends, as the comment on
   * the test describes it and as later revisions of the algorithm compute it.
   * The two give different fingerprints and are never mixed in one run.
   */
  datatype Continuity = Inclusive | Adjacent

  /** Index of the last edit unit of the track file region a clip plays. */
  function LastEditUnit(a: Clip): int {
    a.entryPoint + a.sourceDuration - 1
  }

  /** Where a region that continues `a` must start under the given rule. */
  function NextEntryPoint(rule: Continuity, a: Clip): int {
    match rule
    case Inclusive => a.entryPoint + a.sourceDuration + 1
    case Adjacent => a.entryPoint + a.sourceDuration
  }

  /** `Resource.is_congruent_to`: the same region of the same track file; RepeatCount is ignored. */
  predicate IsCongruentTo(a: Clip, b: Clip)
    ensures IsCongruentTo(a, b) <==> a.(repeatCount := b.repeatCount) == b
  {
    a.trackFileId == b.trackFileId && a.entryPoint == b.entryPoint && a.sourceDuration == b.sourceDuration
  }

  /** `Resource.is_continued_by`: same track file, both played once, `b` starts where `rule` says `a` ends. */
  predicate IsContinuedBy(rule: Continuity, a: Clip, b: Clip)
    ensures IsContinuedBy(rule, a, b) <==>
      a.trackFileId == b.trackFileId && a.repeatCount == b.repeatCount == 1
      && b.entryPoint - LastEditUnit(a) == (if rule == Inclusive then 2 else 1)
  {
    a.trackFileId == b.trackFileId && a.repeatCount == 1 && b.repeatCount == 1
    && NextEntryPoint(rule, a) == b.entryPoint
  }

  /** Congruence is an equivalence relation. */
  lemma CongruenceIsEquivalence(a: Clip, b: Clip, c: Clip)
    ensures IsCongruentTo(a, a)
    ensures IsCongruentTo(a, b) ==> IsCongruentTo(b, a)
    ensures IsCongruentTo(a, b) && IsCongruentTo(b, c) ==> IsCongruentTo(a, c)
  {
  }

  /**
   * A pair satisfies both equivalences only when the first clip has the
   * degenerate duration that makes its continuation point its own entry point.
   */
  lemma BothEquivalencesHold(rule: Continuity, a: Clip, b: Clip)
    requires IsCongruentTo(a, b) && IsContinuedBy(rule, a, b)
    ensures a.sourceDuration == (if rule == Inclusive then -1 else 0)
    ensures a.repeatCount == b.repeatCount == 1
  {
  }

  /** Under `Adjacent`, a continuation is exactly the comment's definition: it starts one unit past `a`'s last unit. */
  lemma AdjacentMatchesDefinition(a: Clip, b: Clip)
    ensures IsContinuedBy(Adjacent, a, b) <==>
      a.trackFileId == b.trackFileId && a.repeatCount == 1 && b.repeatCount == 1
      && b.entryPoint == LastEditUnit(a) + 1
  {
  }

  /**
   * As written, the test rejects every pair the comment calls a continuation:
   * it accepts only a `b` that starts two units past `a`'s last unit.
   */
  lemma InclusiveRejectsContiguousRegion(a: Clip, b: Clip)
    requires a.trackFileId == b.trackFileId && a.repeatCount == 1 && b.repeatCount == 1
    requires b.entryPoint == LastEditUnit(a) + 1
    ensures !IsContinuedBy(Inclusive, a, b)
    ensures IsContinuedBy(Inclusive, a, b.(entryPoint := b.entryPoint + 1))
  {
  }

  // ---------------------------------------------------------------------
  // Reading a Resource element

  const URN_UUID_PREFIX: string := "urn:uuid:"

  /** The text `parse_uuid` hands to `uuid.UUID`: a leading `urn:uuid:` is removed, once. */
  function UuidText(idValue: string): (t: string)
    ensures URN_UUID_PREFIX <= idValue ==> idValue == URN_UUID_PREFIX + t
    ensures !(URN_UUID_PREFIX <= idValue) ==> t == idValue
  {
    if URN_UUID_PREFIX <= idValue then idValue[|URN_UUID_PREFIX|..] else idValue
  }

  /**
   * `parse_uuid`: `decode` stands for `uuid.UUID` on the remaining text,
   * giving None where it raises ValueError.
   */
  function ParseUuid(idValue: string, decode: string -> Option<Uuid>): (r: Option<Uuid>)
    ensures URN_UUID_PREFIX <= idValue ==> r == decode(idValue[|URN_UUID_PREFIX|..])
    ensures !(URN_UUID_PREFIX <= idValue) ==> r == decode(idValue)
  {
    decode(UuidText(idValue))
  }

  /** A UUID reads the same with or without the `urn:uuid:` prefix. */
  lemma UrnPrefixIsTransparent(t: string, decode: string -> Option<Uuid>)
    requires !(URN_UUID_PREFIX <= t)
    ensures ParseUuid(URN_UUID_PREFIX + t, decode) == ParseUuid(t, decode) == decode(t)
  {
    assert URN_UUID_PREFIX <= URN_UUID_PREFIX + t;
  }

  /** The prefix is stripped only at index 0: text containing it elsewhere is passed on whole. */
  lemma PrefixStrippedOnlyAtStart(s: string, t: string, decode: string -> Option<Uuid>)
    requires s != [] && !(URN_UUID_PREFIX <= s + URN_UUID_PREFIX + t)
    ensures ParseUuid(s + URN_UUID_PREFIX + t, decode) == decode(s + URN_UUID_PREFIX + t)
  {
  }

  /**
   * What the parser finds below one Resource element: the integer text of
   * each child that is present, and the TrackFileId text. An IntrinsicDuration
   * element that is missing or has no text is None.
   */
  datatype ResourceElement = ResourceElement(
    entryPoint: Option<int>,
    sourceDuration: Option<int>,
    repeatCount: Option<int>,
    intrinsicDuration: Option<int>,
    trackFileId: Option<string>)

  function OrDefault(o: Option<int>, default: int): int {
    match o
    case Some(v) => v
    case None => default
  }

  /** A SourceDuration that is absent or 0 must be taken from IntrinsicDuration. */
  predicate NeedsIntrinsicDuration(el: ResourceElement) {
    OrDefault(el.sourceDuration, 0) == 0
  }

  /**
   * `Resource.__init__`: EntryPoint defaults to 0, RepeatCount to 1, a zero
   * SourceDuration falls back to IntrinsicDuration, then TrackFileId is parsed.
   */
  function ReadResource(el: ResourceElement, decode: string -> Option<Uuid>): (r: Result<Clip>)
    ensures r.Ok? ==> r.value.entryPoint == OrDefault(el.entryPoint, 0)
    ensures r.Ok? ==> r.value.repeatCount == OrDefault(el.repeatCount, 1)
    ensures r.Ok? && !NeedsIntrinsicDuration(el) ==> r.value.sourceDuration == el.sourceDuration.value
    ensures r.Ok? && NeedsIntrinsicDuration(el) ==> Some(r.value.sourceDuration) == el.intrinsicDuration
    ensures r.Ok? ==> el.trackFileId.Some? && ParseUuid(el.trackFileId.value, decode) == Some(r.value.trackFileId)
    ensures r == Err(MissingIntrinsicDuration) <==> NeedsIntrinsicDuration(el) && el.intrinsicDuration.None?
    ensures r == Err(MissingTrackFileId) <==>
      !(NeedsIntrinsicDuration(el) && el.intrinsicDuration.None?) && el.trackFileId.None?
    ensures r == Err(MalformedUuid) <==>
      !(NeedsIntrinsicDuration(el) && el.intrinsicDuration.None?) && el.trackFileId.Some?
      && ParseUuid(el.trackFileId.value, decode).None?
    ensures r.Ok? <==>
      !(NeedsIntrinsicDuration(el) && el.intrinsicDuration.None?) && el.trackFileId.Some?
      && ParseUuid(el.trackFileId.value, decode).Some?
    ensures r.Err? ==> r.error != PackOutOfRange
  {
    var entryPoint := OrDefault(el.entryPoint, 0);
    var repeatCount := OrDefault(el.repeatCount, 1);
    if NeedsIntrinsicDuration(el) && el.intrinsicDuration.None? then
      Err(MissingIntrinsicDuration)
    else
      var sourceDuration := if NeedsIntrinsicDuration(el) then el.intrinsicDuration.value else el.sourceDuration.value;
      match el.trackFileId
      case None => Err(MissingTrackFileId)
      case Some(text) =>
        match ParseUuid(text, decode)
        case None => Err(MalformedUuid)
        case Some(id) => Ok(Clip(id, entryPoint, sourceDuration, repeatCount))
  }

  /** IntrinsicDuration is consulted only when SourceDuration is absent or 0. */
  lemma IntrinsicDurationOnlyAsFallback(el: ResourceElement, other: Option<int>, decode: string -> Option<Uuid>)
    requires !NeedsIntrinsicDuration(el)
    ensures ReadResource(el.(intrinsicDuration := other), decode) == ReadResource(el, decode)
  {
  }
}
