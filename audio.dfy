/** Loading a sound file into a sample buffer, as `AudioFile::getAudioFile`
    does and as `AudioLooperUi::read_soundfile` repeats. The sound-file
    library and the resampler are not modelled: what `sf_open` and
    `sf_readf_float` report about a file is a `SoundFile` value, and
    `checkSampleRate` is a function passed in. */
module Audio {
  import opened Common

  /** What the sound-file library tells the loader about one file: whether
      it opens, its header (`info.channels`, `info.frames`,
      `info.samplerate`), how many frames a read of the whole file returns
      and the interleaved samples of those frames, and whether the buffer
      for the whole file can be allocated. */
  datatype FileInfo = FileInfo(
    opens: bool,
    channels: nat,
    frames: nat,
    samplerate: uint32,
    framesRead: nat,
    data: seq<real>,
    allocates: bool)

  /** A read returns at most the frames the header announces, and one
      sample per channel for each frame it returns. */
  type SoundFile = f: FileInfo | f.framesRead <= f.frames && |f.data| == f.framesRead * f.channels
    witness FileInfo(false, 0, 0, 0, 0, [], false)

  /** The pointer `checkSampleRate` returns: the buffer it was given, a new
      buffer holding resampled data, or null when resampling failed. */
  datatype Buffer = Same | Fresh(data: seq<real>) | Null

  /** What `checkSampleRate` hands back: the buffer and the frame count it
      writes through its `samplesize` pointer. */
  datatype Resampled = Resampled(buffer: Buffer, frames: uint32)

  /** `checkSampleRate(samplesize, channels, buffer, fileRate, deviceRate)`. */
  type Resampler = (uint32, uint32, seq<real>, uint32, uint32) -> Resampled

  /** The three early checks: the file opens, it has at most two channels,
      and its buffer can be allocated. */
  predicate Admits(f: SoundFile) {
    f.opens && f.channels <= 2 && f.allocates
  }

  /** The buffer after it is zeroed and the frames read are written at its
      front: `frames * channels` samples, those read first, zeros after. */
  function Decoded(f: SoundFile): (b: seq<real>)
    ensures |b| == f.frames * f.channels
    ensures b[..|f.data|] == f.data
    ensures forall k :: |f.data| <= k < |b| ==> b[k] == 0.0
  {
    assert |f.data| <= f.frames * f.channels;
    f.data + seq(f.frames * f.channels - |f.data|, _ => 0.0)
  }

  /** `samplesize` after the read: the frame count the read returns, cut to
      32 bits, or the header's frame count, cut the same way, when that is
      zero. */
  function ReadFrames(f: SoundFile): (n: uint32)
    ensures 0 < f.framesRead < 0x1_0000_0000 ==> n == f.framesRead
    ensures f.framesRead == 0 && f.frames < 0x1_0000_0000 ==> n == f.frames
    ensures n == 0 ==> U32(f.frames) == 0
  {
    if U32(f.framesRead) == 0 then U32(f.frames) else U32(f.framesRead)
  }

  /** The outcome of one load: whether the early checks passed, the three
      fields and the buffer (`None` for a null pointer). */
  datatype Outcome = Outcome(
    admitted: bool,
    channels: uint32,
    samplesize: uint32,
    samplerate: uint32,
    samples: Option<seq<real>>)

  /** What `getAudioFile(file, deviceRate)` leaves behind. */
  function Load(f: SoundFile, deviceRate: uint32, resample: Resampler): (o: Outcome)
    ensures o.admitted <==> Admits(f)
    ensures !o.admitted ==> o == Outcome(false, 0, 0, 0, None)
    ensures o.admitted ==> o.channels == f.channels && o.samplerate == f.samplerate
  {
    if !Admits(f) then Outcome(false, 0, 0, 0, None)
    else
      var r := resample(ReadFrames(f), f.channels, Decoded(f), f.samplerate, deviceRate);
      Outcome(true, f.channels, r.frames, f.samplerate,
        match r.buffer
        case Same => Some(Decoded(f))
        case Fresh(d) => Some(d)
        case Null => None)
  }

  /** A load succeeds exactly when the early checks pass and the resampler
      hands back a buffer; when it hands back the one it was given, every
      sample past the frames read is zero. */
  lemma LoadSucceeds(f: SoundFile, deviceRate: uint32, resample: Resampler)
    ensures Load(f, deviceRate, resample).samples.Some? <==>
            Admits(f) && !resample(ReadFrames(f), f.channels, Decoded(f), f.samplerate, deviceRate).buffer.Null?
    ensures Admits(f) && resample(ReadFrames(f), f.channels, Decoded(f), f.samplerate, deviceRate).buffer.Same? ==>
            var s := Load(f, deviceRate, resample).samples.value;
            |s| == f.frames * f.channels && s[..|f.data|] == f.data &&
            forall k :: |f.data| <= k < |s| ==> s[k] == 0.0
  {
  }

  /** The rate the device asks for reaches the resampler only: the rate the
      load reports is the file's whatever the device runs at. */
  lemma SamplerateIsTheFiles(f: SoundFile, rate1: uint32, rate2: uint32, resample: Resampler)
    ensures Load(f, rate1, resample).samplerate == Load(f, rate2, resample).samplerate
    ensures Admits(f) ==> Load(f, rate1, resample).samplerate == f.samplerate
  {
  }

  /** `memset(samples, 0, …)`: every slot of the new buffer becomes zero. */
  method ZeroFill(a: array<real>)
    modifies a
    ensures forall k :: 0 <= k < a.Length ==> a[k] == 0.0
  {
    var i := 0;
    while i < a.Length
      invariant 0 <= i <= a.Length
      invariant forall k :: 0 <= k < i ==> a[k] == 0.0
    {
      a[i] := 0.0;
      i := i + 1;
    }
  }

  /** `sf_readf_float(sndfile, &samples[0], frames)`: the samples read are
      written at the front of the buffer and the rest is left as it was. */
  method ReadInto(a: array<real>, data: seq<real>)
    requires |data| <= a.Length
    modifies a
    ensures a[..] == data + old(a[..])[|data|..]
  {
    var i := 0;
    while i < |data|
      invariant 0 <= i <= |data|
      invariant forall k :: 0 <= k < i ==> a[k] == data[k]
      invariant forall k :: i <= k < a.Length ==> a[k] == old(a[k])
    {
      a[i] := data[i];
      i := i + 1;
    }
  }

  /** The steps both loaders share once their fields are reset: the early
      checks, the zeroed buffer, the read, the header fields and the
      resampler. `samples` is the pointer that ends up in the field. */
  method Decode(f: SoundFile, deviceRate: uint32, resample: Resampler)
    returns (admitted: bool, channels: uint32, samplesize: uint32, samplerate: uint32, samples: array?<real>)
    ensures var o := Load(f, deviceRate, resample);
            admitted == o.admitted && channels == o.channels &&
            samplesize == o.samplesize && samplerate == o.samplerate &&
            (samples == null <==> o.samples.None?) &&
            (samples != null ==> fresh(samples) && samples[..] == o.samples.value)
  {
    admitted, channels, samplesize, samplerate, samples := false, 0, 0, 0, null;
    if !f.opens || f.channels > 2 || !f.allocates {
      return;
    }
    assert |f.data| <= f.frames * f.channels;
    var buf := new real[f.frames * f.channels];
    ZeroFill(buf);
    ReadInto(buf, f.data);
    assert buf[..] == Decoded(f);
    samplesize := ReadFrames(f);
    channels := f.channels;
    samplerate := f.samplerate;
    var r := resample(samplesize, channels, buf[..], samplerate, deviceRate);
    samplesize := r.frames;
    admitted := true;
    match r.buffer
    case Same =>
      samples := buf;
    case Fresh(d) =>
      samples := new real[|d|](k requires 0 <= k < |d| => d[k]);
    case Null =>
      samples := null;
  }

  /** `AudioFile`: the decoded buffer of one file with its layout, and a
      buffer that the save operations write from. */
  class AudioFile {
    var channels: uint32
    var samplesize: uint32
    var samplerate: uint32
    var samples: array?<real>
    var saveBuffer: array?<real>

    constructor()
      ensures channels == 0 && samplesize == 0 && samplerate == 0
      ensures samples == null && saveBuffer == null
    {
      channels := 0;
      samplesize := 0;
      samplerate := 0;
      samples := null;
      saveBuffer := null;
    }

    /** `getAudioFile(file, expectedSampleRate)`: resets the fields and
        drops the old buffer, then loads `file`. It answers true exactly
        when a buffer is left in `samples`. */
    method GetAudioFile(file: SoundFile, expectedSampleRate: uint32, resample: Resampler) returns (ok: bool)
      modifies this
      ensures var o := Load(file, expectedSampleRate, resample);
              channels == o.channels && samplesize == o.samplesize && samplerate == o.samplerate &&
              (samples == null <==> o.samples.None?) &&
              (samples != null ==> fresh(samples) && samples[..] == o.samples.value)
      ensures ok <==> samples != null
      ensures saveBuffer == old(saveBuffer)
    {
      channels := 0;
      samplesize := 0;
      samplerate := 0;
      samples := null;
      var admitted, ch, size, rate, buf := Decode(file, expectedSampleRate, resample);
      if !admitted {
        return false;
      }
      samplesize := size;
      channels := ch;
      samplerate := rate;
      samples := buf;
      ok := samples != null;
    }
  }
}
