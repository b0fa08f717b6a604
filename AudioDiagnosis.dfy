/**
 * The compatibility verdict of `asr/diagnose_audio.py` over an `ffprobe`
 * report, the conversion offer that follows it, and the converted file's
 * name. Running `ffprobe`/`ffmpeg` and reading the answer are not modelled.
 */
module AudioDiagnosis {
  import opened Common

  /** One stream of the report; numeric fields already converted, with 0 for a missing one. */
  datatype Stream = Stream(codecType: Option<string>, codecName: string, sampleRate: int, channels: int)

  /** The `format` section: its name ("" when missing) and duration (0 when missing). */
  datatype Format = Format(formatName: string, duration: real)

  /** An `ffprobe` report: the two sections read here, and whether it has any other key. */
  datatype ProbeData = ProbeData(format: Option<Format>, streams: Option<seq<Stream>>, otherKeys: bool)

  /** `if not data`: no report, or an empty one. */
  predicate Present(data: Option<ProbeData>) {
    data.Some? && (data.value.format.Some? || data.value.streams.Some? || data.value.otherKeys)
  }

  /** A problem that makes the file incompatible. */
  datatype Issue = ZeroDuration | NoAudioStream

  /** A remark that leaves the verdict unchanged. */
  datatype Warning =
    | NotOgg(formatName: string)
    | TooShort(duration: real)
    | NotOpus(codecName: string)
    | NotSixteenKilohertz(sampleRate: int)
    | NotMono(channels: int)

  predicate IsAudio(s: Stream) {
    s.codecType == Some("audio")
  }

  /** The audio streams, in report order. */
  function AudioStreams(streams: seq<Stream>): (a: seq<Stream>)
    ensures forall s :: s in a <==> s in streams && IsAudio(s)
    ensures |a| > 0 ==> exists k :: (0 <= k < |streams| && streams[k] == a[0]
      && forall j :: 0 <= j < k ==> !IsAudio(streams[j]))
  {
    if |streams| == 0 then []
    else if IsAudio(streams[0]) then [streams[0]] + AudioStreams(streams[1..])
    else
      var rest := AudioStreams(streams[1..]);
      assert |rest| > 0 ==> streams[1..][0] in streams;
      rest
  }

  /** The report's streams, or none when the key is missing. */
  function StreamsOf(d: ProbeData): seq<Stream> {
    if d.streams.Some? then d.streams.value else []
  }

  /** The verdict as a property of the report: a non-zero duration (when stated) and some audio stream. */
  predicate Compatible(d: ProbeData) {
    (d.format.None? || d.format.value.duration != 0.0) && exists s :: s in StreamsOf(d) && IsAudio(s)
  }

  /** The first audio stream, the only one whose parameters are inspected. */
  function FirstAudio(d: ProbeData): Option<Stream> {
    var audio := AudioStreams(StreamsOf(d));
    if |audio| == 0 then None else Some(audio[0])
  }

  /** The issues a report shows. */
  predicate Flags(d: ProbeData, issue: Issue) {
    match issue
    case ZeroDuration => d.format.Some? && d.format.value.duration == 0.0
    case NoAudioStream => FirstAudio(d).None?
  }

  /** The warnings a report draws: from its `format` section and from its first audio stream. */
  predicate Warns(d: ProbeData, w: Warning) {
    match w
    case NotOgg(n) => d.format.Some? && n == d.format.value.formatName && !Contains(n, "ogg")
    case TooShort(x) => d.format.Some? && x == d.format.value.duration && x != 0.0 && x < 0.5
    case NotOpus(c) => FirstAudio(d).Some? && c == FirstAudio(d).value.codecName && c != "opus"
    case NotSixteenKilohertz(r) => FirstAudio(d).Some? && r == FirstAudio(d).value.sampleRate && r != 16000
    case NotMono(n) => FirstAudio(d).Some? && n == FirstAudio(d).value.channels && n != 1
  }

  /** The verdict's property is the absence of both issues. */
  lemma CompatibleUnflagged(d: ProbeData)
    ensures Compatible(d) <==> !Flags(d, ZeroDuration) && !Flags(d, NoAudioStream)
  {
    var audio := AudioStreams(StreamsOf(d));
    if Compatible(d) {
      var a :| a in StreamsOf(d) && IsAudio(a);
      assert a in audio;
    }
    if |audio| > 0 {
      assert audio[0] in audio;
    }
  }

  /**
   * `check_compatibility`: `None` without a report, otherwise whether there
   * were no issues; the warnings are reported beside it and never change it.
   */
  method CheckCompatibility(data: Option<ProbeData>) returns (verdict: Option<bool>, issues: seq<Issue>, warnings: seq<Warning>)
    ensures verdict.None? <==> !Present(data)
    ensures Present(data) ==> verdict == Some(|issues| == 0)
    ensures Present(data) ==> (verdict == Some(true) <==> Compatible(data.value))
    ensures forall x :: x in issues <==> Present(data) && Flags(data.value, x)
    ensures forall x :: x in warnings <==> Present(data) && Warns(data.value, x)
  {
    if !Present(data) {
      return None, [], [];
    }
    var formatIssues, formatWarnings := CheckFormat(data.value);
    var audio := CollectAudio(StreamsOf(data.value));
    var streamIssues, streamWarnings := CheckAudio(data.value, audio);
    issues := formatIssues + streamIssues;
    warnings := formatWarnings + streamWarnings;
    verdict := Some(|issues| == 0);
    CompatibleUnflagged(data.value);
    assert |issues| > 0 ==> issues[0] in issues;
  }

  /** The checks on the `format` section, when there is one: the container name and the duration. */
  method CheckFormat(d: ProbeData) returns (issues: seq<Issue>, warnings: seq<Warning>)
    ensures forall x :: x in issues <==> x.ZeroDuration? && Flags(d, x)
    ensures forall x :: x in warnings <==> (x.NotOgg? || x.TooShort?) && Warns(d, x)
  {
    issues, warnings := [], [];
    if d.format.None? {
      return;
    }
    var fmt := d.format.value;
    if !Contains(fmt.formatName, "ogg") {
      warnings := warnings + [NotOgg(fmt.formatName)];
    }
    if fmt.duration == 0.0 {
      issues := issues + [ZeroDuration];
    } else if fmt.duration < 0.5 {
      warnings := warnings + [TooShort(fmt.duration)];
    }
  }

  /** The audio streams of the report, collected in one pass. */
  method CollectAudio(streams: seq<Stream>) returns (audio: seq<Stream>)
    ensures audio == AudioStreams(streams)
  {
    audio := [];
    var i := 0;
    while i < |streams|
      invariant i <= |streams|
      invariant audio == AudioStreams(streams[..i])
    {
      AudioStreamsSnoc(streams[..i], streams[i]);
      assert streams[..i + 1] == streams[..i] + [streams[i]];
      if streams[i].codecType == Some("audio") {
        audio := audio + [streams[i]];
      }
      i := i + 1;
    }
    assert streams[..i] == streams;
  }

  /** The checks on the streams: some audio stream, and the first one's codec, rate and channels. */
  method CheckAudio(d: ProbeData, audio: seq<Stream>) returns (issues: seq<Issue>, warnings: seq<Warning>)
    requires audio == AudioStreams(StreamsOf(d))
    ensures forall x :: x in issues <==> x.NoAudioStream? && Flags(d, x)
    ensures forall x :: x in warnings <==> (x.NotOpus? || x.NotSixteenKilohertz? || x.NotMono?) && Warns(d, x)
  {
    issues, warnings := [], [];
    if |audio| == 0 {
      issues := [NoAudioStream];
      return;
    }
    var s := audio[0];
    if s.codecName != "opus" {
      warnings := warnings + [NotOpus(s.codecName)];
    }
    if s.sampleRate != 16000 {
      warnings := warnings + [NotSixteenKilohertz(s.sampleRate)];
    }
    if s.channels != 1 {
      warnings := warnings + [NotMono(s.channels)];
    }
  }

  /** Filtering a report one stream longer adds that stream when it is audio. */
  lemma {:induction false} AudioStreamsSnoc(streams: seq<Stream>, s: Stream)
    ensures AudioStreams(streams + [s]) == AudioStreams(streams) + (if IsAudio(s) then [s] else [])
  {
    if |streams| == 0 {
      assert ([s])[1..] == [];
    } else {
      assert (streams + [s])[1..] == streams[1..] + [s];
      AudioStreamsSnoc(streams[1..], s);
    }
  }

  /**
   * `main`'s decision after the check: a conversion is offered exactly when
   * a report exists and shows an issue; warnings alone never lead to one.
   */
  method OfferConversion(data: Option<ProbeData>) returns (offer: bool)
    ensures offer <==> Present(data) && !Compatible(data.value)
  {
    var compatible, _, _ := CheckCompatibility(data);
    offer := compatible != Some(true) && Present(data);
  }

  /** `input_file.rsplit('.', 1)[0]`: everything before the last dot, or the whole name. */
  function StripLastExtension(name: string): (r: string)
    ensures StartsWith(name, r)
    ensures '.' !in name ==> r == name
    ensures '.' in name ==> |r| < |name| && name[|r|] == '.' && '.' !in name[|r| + 1..]
  {
    if |name| == 0 then ""
    else if name[|name| - 1] == '.' then name[..|name| - 1]
    else
      var r := StripLastExtension(name[..|name| - 1]);
      assert forall c :: c in name[..|name| - 1] ==> c in name;
      assert '.' in name ==> '.' in name[..|name| - 1] by {
        if '.' in name {
          var k :| 0 <= k < |name| && name[k] == '.';
          assert k < |name| - 1;
          assert name[..|name| - 1][k] == '.';
        }
      }
      if '.' in name[..|name| - 1] then
        assert name[|r| + 1..] == name[..|name| - 1][|r| + 1..] + [name[|name| - 1]];
        r
      else name
  }

  /** The name `main` gives the converted file. */
  function ConvertedName(input: string): string {
    StripLastExtension(input) + "_converted.ogg"
  }

  /** `voice.mp3` becomes `voice_converted.ogg`; only the last extension goes. */
  lemma ConvertedNameReplacesExtension(stem: string, ext: string)
    requires '.' !in ext
    ensures ConvertedName(stem + "." + ext) == stem + "_converted.ogg"
  {
    var name := stem + "." + ext;
    var r := StripLastExtension(name);
    assert name[|stem|] == '.';
    assert '.' in name;
    assert r == name[..|r|] == stem;
  }

  /** A name without a dot keeps all of itself. */
  lemma ConvertedNameWithoutDot(name: string)
    requires '.' !in name
    ensures ConvertedName(name) == name + "_converted.ogg"
  {
  }
}
