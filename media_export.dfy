/** An export request: input and output files, a preset, and optional target dimensions and frame rate. */
module MediaExport {
  import opened Wrappers

  /** The export presets; their encoder settings are a constant table not modelled here. */
  datatype ExportPreset = FastPreview | Balanced | HighQuality

  /** `null` targets are `None`; a frame rate is a double, modelled as a real. */
  datatype MediaExportRequest = MediaExportRequest(
    input: string, output: string, preset: ExportPreset,
    targetWidth: Option<int>, targetHeight: Option<int>, targetFrameRate: Option<real>)
  {
    /** `widthOrDefault`. */
    function WidthOrDefault(value: int): (r: int)
      ensures targetWidth.Some? ==> r == targetWidth.value
      ensures targetWidth.None? ==> r == value
    {
      if targetWidth.Some? then targetWidth.value else value
    }

    /** `heightOrDefault`. */
    function HeightOrDefault(value: int): (r: int)
      ensures targetHeight.Some? ==> r == targetHeight.value
      ensures targetHeight.None? ==> r == value
    {
      if targetHeight.Some? then targetHeight.value else value
    }

    /** `frameRateOrDefault`: a target that is not positive is ignored like a missing one. */
    function FrameRateOrDefault(value: real): (r: real)
      ensures targetFrameRate.Some? && targetFrameRate.value > 0.0 ==> r == targetFrameRate.value
      ensures targetFrameRate.None? || targetFrameRate.value <= 0.0 ==> r == value
    {
      if targetFrameRate.Some? && targetFrameRate.value > 0.0 then targetFrameRate.value else value
    }
  }

  /** The compact constructor: a null input, output or preset is rejected, in that order. */
  function NewMediaExportRequest(input: Option<string>, output: Option<string>, preset: Option<ExportPreset>,
                                 targetWidth: Option<int>, targetHeight: Option<int>, targetFrameRate: Option<real>)
    : (r: Result<MediaExportRequest>)
    ensures r.Err? <==> input.None? || output.None? || preset.None?
    ensures r.Err? ==> r.error == NullArgument
    ensures r.Ok? ==> r.value == MediaExportRequest(input.value, output.value, preset.value, targetWidth, targetHeight, targetFrameRate)
  {
    if input.None? || output.None? || preset.None? then Err(NullArgument)
    else Ok(MediaExportRequest(input.value, output.value, preset.value, targetWidth, targetHeight, targetFrameRate))
  }
}
