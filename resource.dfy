/** The parsed Resource object, whose fields the merge loop updates in place. */
module Resources {
  import opened Types
  import opened Packing
  import opened Clips
  import opened Encoding

  /**
   * `Resource`: one Resource element of the CPL. SourceDuration and
   * RepeatCount are the fields the merge loop grows when it folds later
   * resources into this one.
   */
  class Resource {
    const trackFileId: Uuid
    const entryPoint: int
    var sourceDuration: int
    var repeatCount: int

    /** The fingerprinted properties as they are now. */
    function Value(): Clip
      reads this
    {
      Clip(trackFileId, entryPoint, sourceDuration, repeatCount)
    }

    /** Builds the object from the properties `ReadResource` took from the element. */
    constructor (c: Clip)
      ensures Value() == c
    {
      trackFileId := c.trackFileId;
      entryPoint := c.entryPoint;
      sourceDuration := c.sourceDuration;
      repeatCount := c.repeatCount;
    }

    /**
     * `Resource(root)`: reads the element with its defaults and builds a
     * new object from the properties, or raises as `ReadResource` says.
     */
    static method Read(el: ResourceElement, decode: string -> Option<Uuid>) returns (r: Result<Resource>)
      ensures r.Ok? <==> ReadResource(el, decode).Ok?
      ensures r.Ok? ==> fresh(r.value) && r.value.Value() == ReadResource(el, decode).value
      ensures r.Err? ==> r.error == ReadResource(el, decode).error
    {
      var read := ReadResource(el, decode);
      if read.Err? {
        r := Err(read.error);
      } else {
        var resource := new Resource(read.value);
        r := Ok(resource);
      }
    }

    /**
     * `update_digest`: feeds this node's block into `md`, field by field;
     * false where `struct.pack` raises (the octets fed before that are lost
     * with the exception).
     */
    method UpdateDigest(md: Sha1) returns (ok: bool)
      modifies md
      ensures ok <==> EncodeClip(Value()).Ok?
      ensures ok ==> md.fed == old(md.fed) + EncodeClip(Value()).value
    {
      md.Update(trackFileId);
      var ep := PackU64(entryPoint);
      if ep.Err? {
        return false;
      }
      md.Update(ep.value);
      var sd := PackU64(sourceDuration);
      if sd.Err? {
        return false;
      }
      md.Update(sd.value);
      var rc := PackU64(repeatCount);
      if rc.Err? {
        return false;
      }
      md.Update(rc.value);
      ok := true;
    }
  }
}
