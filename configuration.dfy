/**
 * The immutable video configuration record (Spitfire/Classes/VideoData.swift)
 * and the two settings dictionaries derived from it.
 */
module Configuration {
  import opened Wrappers
  import opened Media

  /** A value in a `[String : Any]` settings dictionary. */
  datatype Setting = Text(text: string) | Number(number: int)

  /** AVFoundation's output settings keys. */
  const AVVideoCodecKey := "AVVideoCodecKey"
  const AVVideoWidthKey := "AVVideoWidthKey"
  const AVVideoHeightKey := "AVVideoHeightKey"

  /** CoreVideo's pixel buffer attribute keys. */
  const PixelFormatTypeKey := "PixelFormatType"
  const PixelBufferWidthKey := "Width"
  const PixelBufferHeightKey := "Height"

  /** AVVideoCodecType.h264 (the legacy AVVideoCodecH264 has the same value). */
  const H264 := "avc1"

  /** kCVPixelFormatType_32ARGB. */
  const PixelFormat32ARGB := 0x20

  /**
   * `VideoData`: frame rate, frame size and destination, all `let` fields
   * fixed when the record is made.
   */
  datatype VideoData = VideoData(fps: int32, size: Size, url: Url) {

    /** The output settings for the writer input: H.264 at the frame size. */
    function VideoSettings(): (m: map<string, Setting>)
      ensures m.Keys == {AVVideoCodecKey, AVVideoWidthKey, AVVideoHeightKey}
      ensures m[AVVideoCodecKey] == Text(H264)
      ensures FrameSize(m, AVVideoWidthKey, AVVideoHeightKey) == Some(size)
    {
      map[AVVideoCodecKey := Text(H264),
          AVVideoWidthKey := Number(size.width),
          AVVideoHeightKey := Number(size.height)]
    }

    /** The source pixel buffer attributes for the adaptor: 32ARGB at the frame size. */
    function SourceBufferAttributes(): (m: map<string, Setting>)
      ensures m.Keys == {PixelFormatTypeKey, PixelBufferWidthKey, PixelBufferHeightKey}
      ensures m[PixelFormatTypeKey] == Number(PixelFormat32ARGB)
      ensures FrameSize(m, PixelBufferWidthKey, PixelBufferHeightKey) == Some(size)
    {
      map[PixelFormatTypeKey := Number(PixelFormat32ARGB),
          PixelBufferWidthKey := Number(size.width),
          PixelBufferHeightKey := Number(size.height)]
    }
  }

  /** Reads a frame size back out of a settings dictionary, if it holds one under the given keys. */
  function FrameSize(m: map<string, Setting>, widthKey: string, heightKey: string): Option<Size> {
    if widthKey in m && heightKey in m && m[widthKey].Number? && m[heightKey].Number?
       && m[widthKey].number >= 0 && m[heightKey].number >= 0
    then Some(Size(m[widthKey].number, m[heightKey].number))
    else None
  }

  /**
   * The derived dictionaries depend on the frame size alone: two records
   * give the same settings, and the same attributes, exactly when their
   * sizes agree, whatever their frame rates and URLs.
   */
  lemma DerivedSettingsDetermineSize(a: VideoData, b: VideoData)
    ensures a.VideoSettings() == b.VideoSettings() <==> a.size == b.size
    ensures a.SourceBufferAttributes() == b.SourceBufferAttributes() <==> a.size == b.size
  {
    if a.VideoSettings() == b.VideoSettings() {
      assert FrameSize(a.VideoSettings(), AVVideoWidthKey, AVVideoHeightKey) == Some(a.size);
    }
    if a.SourceBufferAttributes() == b.SourceBufferAttributes() {
      assert FrameSize(a.SourceBufferAttributes(), PixelBufferWidthKey, PixelBufferHeightKey) == Some(a.size);
    }
  }

  /** The writer's output settings and the adaptor's buffer attributes describe the same frame size. */
  lemma SettingsAgreeOnFrameSize(v: VideoData)
    ensures FrameSize(v.VideoSettings(), AVVideoWidthKey, AVVideoHeightKey)
         == FrameSize(v.SourceBufferAttributes(), PixelBufferWidthKey, PixelBufferHeightKey)
  {
  }
}
