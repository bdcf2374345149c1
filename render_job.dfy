/** A queued render of a project range to an output file with a preset. */
module RenderJobs {
  import opened Wrappers

  /** The render presets; their encoder settings are a constant table not modelled here. */
  datatype RenderPreset = Youtube1080p | TiktokVertical | InstagramSquare | ProRes422

  /**
   * A validated job: `start` and `end` are milliseconds with `end > start`; the metadata is
   * a value, so the job cannot see later changes to the caller's map. Metadata values are
   * modelled as strings.
   */
  datatype RenderJob = RenderJob(
    id: nat, projectFile: string, output: string, preset: RenderPreset,
    start: int, end: int, metadata: map<string, string>)

  /**
   * The constructor: each null argument is rejected, in declaration order, then an end not
   * after the start; a null metadata map becomes the empty map.
   */
  function NewRenderJob(id: Option<nat>, projectFile: Option<string>, output: Option<string>,
                        preset: Option<RenderPreset>, start: Option<int>, end: Option<int>,
                        metadata: Option<map<string, string>>): (r: Result<RenderJob>)
    ensures (id.None? || projectFile.None? || output.None? || preset.None? || start.None? || end.None?)
      ==> r == Err(NullArgument)
    ensures id.Some? && projectFile.Some? && output.Some? && preset.Some? && start.Some? && end.Some? ==>
      && (r.Err? <==> end.value <= start.value)
      && (r.Err? ==> r.error == IllegalArgument)
      && (r.Ok? ==> r.value == RenderJob(id.value, projectFile.value, output.value, preset.value,
            start.value, end.value, if metadata.None? then map[] else metadata.value))
    ensures r.Ok? ==> r.value.end > r.value.start
  {
    if id.None? || projectFile.None? || output.None? || preset.None? || start.None? || end.None? then
      Err(NullArgument)
    else if end.value <= start.value then
      Err(IllegalArgument)
    else
      Ok(RenderJob(id.value, projectFile.value, output.value, preset.value, start.value, end.value,
        if metadata.None? then map[] else metadata.value))
  }
}
