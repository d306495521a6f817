/**
 * Source/ProcessCommand.cpp, lines 142-423: the bookkeeping of the process command.
 * The audio and MIDI files are given by what the command reads from them (a
 * reader's sample rate, length, channel count and bit depth; a MIDI file's event
 * times in seconds), the plugin by its parameters and live values.
 */
module ProcessCommand {
  import opened Outcomes
  import opened CStdlib
  import opened Json
  import opened Plugin
  import opened Utils
  import opened AutomationTypes
  import Automation
  import ProcessArguments

  function Max(a: nat, b: nat): nat {
    if a < b then b else a
  }

  function Min(a: nat, b: nat): nat {
    if a < b then a else b
  }

  /** The largest of the numbers, 0 for none: std::max folded over them from 0. */
  function MaxOf(xs: seq<nat>): nat {
    if xs == [] then 0 else Max(MaxOf(xs[..|xs| - 1]), xs[|xs| - 1])
  }

  /** MaxOf is the maximum: it bounds every element and is one of them (or 0 for none). */
  lemma {:induction false} MaxOfIsMaximum(xs: seq<nat>)
    ensures forall k | 0 <= k < |xs| :: xs[k] <= MaxOf(xs)
    ensures xs == [] ==> MaxOf(xs) == 0
    ensures xs != [] ==> exists k | 0 <= k < |xs| :: xs[k] == MaxOf(xs)
    decreases |xs|
  {
    if xs != [] {
      var init := xs[..|xs| - 1];
      MaxOfIsMaximum(init);
      forall k | 0 <= k < |xs| ensures xs[k] <= MaxOf(xs) {
        if k < |xs| - 1 {
          assert xs[k] == init[k];
        }
      }
      if MaxOf(xs) != xs[|xs| - 1] {
        var k :| 0 <= k < |init| && init[k] == MaxOf(init);
        assert xs[k] == init[k];
      }
    }
  }

  lemma MaxOfAppend(xs: seq<nat>, x: nat)
    ensures MaxOf(xs + [x]) == Max(MaxOf(xs), x)
  {
    assert (xs + [x])[..|xs|] == xs;
  }

  // ---------------------------------------------------------------------------
  // Input files (lines 278-339)
  // ---------------------------------------------------------------------------

  /** What the command reads from a juce::AudioFormatReader. */
  datatype AudioFileInfo = AudioFileInfo(sampleRate: real, lengthInSamples: nat, numChannels: nat, bitsPerSample: nat)

  function Lengths(files: seq<AudioFileInfo>): (lengths: seq<nat>)
    ensures |lengths| == |files|
    ensures forall k | 0 <= k < |files| :: lengths[k] == files[k].lengthInSamples
  {
    seq(|files|, k requires 0 <= k < |files| => files[k].lengthInSamples)
  }

  /** Every file has the first file's sample rate. */
  predicate SameSampleRate(files: seq<AudioFileInfo>) {
    forall k | 0 <= k < |files| :: files[k].sampleRate == files[0].sampleRate
  }

  /**
   * createAudioFileReaders: the length of the longest input file, or the error for
   * a file whose sample rate differs from the first file's.
   */
  method CreateAudioFileReaders(files: seq<AudioFileInfo>) returns (r: Result<nat>)
    ensures r.Ok? <==> SameSampleRate(files)
    ensures r.Ok? ==> r.value == MaxOf(Lengths(files))
    ensures r.Err? ==> r.error == MismatchedSampleRate
  {
    var maxLengthInSamples: nat := 0;
    var sampleRate: real := 0.0;
    var i := 0;
    while i < |files|
      invariant 0 <= i <= |files|
      invariant i > 0 ==> sampleRate == files[0].sampleRate
      invariant forall k | 0 <= k < i :: files[k].sampleRate == files[0].sampleRate
      invariant maxLengthInSamples == MaxOf(Lengths(files)[..i])
    {
      if i == 0 {
        sampleRate := files[i].sampleRate;
      } else if files[i].sampleRate != sampleRate {
        return Err(MismatchedSampleRate);
      }
      assert Lengths(files)[..i + 1] == Lengths(files)[..i] + [files[i].lengthInSamples];
      MaxOfAppend(Lengths(files)[..i], files[i].lengthInSamples);
      maxLengthInSamples := Max(maxLengthInSamples, files[i].lengthInSamples);
      i := i + 1;
    }
    assert Lengths(files)[..i] == Lengths(files);
    return Ok(maxLengthInSamples);
  }

  /** The input length is the longest file's length: no file is longer and one is as long. */
  lemma InputLengthOfFiles(files: seq<AudioFileInfo>)
    ensures forall k | 0 <= k < |files| :: files[k].lengthInSamples <= MaxOf(Lengths(files))
    ensures files != [] ==> exists k | 0 <= k < |files| :: files[k].lengthInSamples == MaxOf(Lengths(files))
  {
    MaxOfIsMaximum(Lengths(files));
  }

  /** A MIDI file after convertTimestampTicksToSeconds: each track's event times in seconds. */
  type MidiTracks = seq<seq<real>>

  function TrackSamples(track: seq<real>, sampleRate: real): (samples: seq<nat>)
    ensures |samples| == |track|
    ensures forall k | 0 <= k < |track| :: samples[k] == SecondsToSamples(track[k], sampleRate)
  {
    seq(|track|, k requires 0 <= k < |track| => SecondsToSamples(track[k], sampleRate))
  }

  /** The sample position of every event, track by track, each track in its own order. */
  function EventSamples(tracks: MidiTracks, sampleRate: real): seq<nat> {
    if tracks == [] then []
    else EventSamples(tracks[..|tracks| - 1], sampleRate) + TrackSamples(tracks[|tracks| - 1], sampleRate)
  }

  /** The event positions are exactly the events' times converted to samples. */
  lemma {:induction false} EventSamplesMembers(tracks: MidiTracks, sampleRate: real, t: nat)
    ensures t in EventSamples(tracks, sampleRate) <==>
      exists i, j | 0 <= i < |tracks| && 0 <= j < |tracks[i]| :: SecondsToSamples(tracks[i][j], sampleRate) == t
    decreases |tracks|
  {
    if tracks != [] {
      var init := tracks[..|tracks| - 1];
      var last := tracks[|tracks| - 1];
      EventSamplesMembers(init, sampleRate, t);
      assert EventSamples(tracks, sampleRate) == EventSamples(init, sampleRate) + TrackSamples(last, sampleRate);
      if t in EventSamples(tracks, sampleRate) {
        if t in EventSamples(init, sampleRate) {
          var i, j :| 0 <= i < |init| && 0 <= j < |init[i]| && SecondsToSamples(init[i][j], sampleRate) == t;
          assert tracks[i] == init[i];
        } else {
          var j :| 0 <= j < |last| && TrackSamples(last, sampleRate)[j] == t;
          assert SecondsToSamples(tracks[|tracks| - 1][j], sampleRate) == t;
        }
      }
      if exists i, j | 0 <= i < |tracks| && 0 <= j < |tracks[i]| :: SecondsToSamples(tracks[i][j], sampleRate) == t {
        var i, j :| 0 <= i < |tracks| && 0 <= j < |tracks[i]| && SecondsToSamples(tracks[i][j], sampleRate) == t;
        if i < |init| {
          assert init[i] == tracks[i];
        } else {
          assert tracks[i] == last;
          assert t in TrackSamples(last, sampleRate) by {
            assert TrackSamples(last, sampleRate)[j] == t;
          }
        }
      }
    }
  }

  lemma EventSamplesStep(tracks: MidiTracks, sampleRate: real, i: nat)
    requires i < |tracks|
    ensures EventSamples(tracks[..i + 1], sampleRate) == EventSamples(tracks[..i], sampleRate) + TrackSamples(tracks[i], sampleRate)
  {
    assert tracks[..i + 1][..i] == tracks[..i];
  }

  lemma TrackSamplesStep(track: seq<real>, sampleRate: real, j: nat)
    requires j < |track|
    ensures TrackSamples(track[..j + 1], sampleRate) == TrackSamples(track[..j], sampleRate) + [SecondsToSamples(track[j], sampleRate)]
  {
  }

  /**
   * readMIDIFile's length: the sample position of the latest event in any track
   * (0 for a file without events).
   */
  method ReadMidiFileLength(tracks: MidiTracks, sampleRate: real) returns (lengthInSamples: nat)
    ensures lengthInSamples == MaxOf(EventSamples(tracks, sampleRate))
  {
    lengthInSamples := 0;
    var i := 0;
    while i < |tracks|
      invariant 0 <= i <= |tracks|
      invariant lengthInSamples == MaxOf(EventSamples(tracks[..i], sampleRate))
    {
      var midiTrack := tracks[i];
      var j := 0;
      assert EventSamples(tracks[..i], sampleRate) + TrackSamples(midiTrack[..0], sampleRate) == EventSamples(tracks[..i], sampleRate);
      while j < |midiTrack|
        invariant 0 <= j <= |midiTrack|
        invariant lengthInSamples == MaxOf(EventSamples(tracks[..i], sampleRate) + TrackSamples(midiTrack[..j], sampleRate))
      {
        var timestampSamples := SecondsToSamples(midiTrack[j], sampleRate);
        ghost var before := EventSamples(tracks[..i], sampleRate) + TrackSamples(midiTrack[..j], sampleRate);
        TrackSamplesStep(midiTrack, sampleRate, j);
        assert EventSamples(tracks[..i], sampleRate) + TrackSamples(midiTrack[..j + 1], sampleRate) == before + [timestampSamples];
        MaxOfAppend(before, timestampSamples);
        lengthInSamples := Max(lengthInSamples, timestampSamples);
        j := j + 1;
      }
      assert midiTrack[..j] == midiTrack;
      EventSamplesStep(tracks, sampleRate, i);
      i := i + 1;
    }
    assert tracks[..i] == tracks;
  }

  /** The MIDI length is the latest event's position: every event is at or before it, and one is at it. */
  lemma MidiLengthIsLastEvent(tracks: MidiTracks, sampleRate: real)
    ensures forall t | t in EventSamples(tracks, sampleRate) :: t <= MaxOf(EventSamples(tracks, sampleRate))
    ensures EventSamples(tracks, sampleRate) != [] ==> MaxOf(EventSamples(tracks, sampleRate)) in EventSamples(tracks, sampleRate)
  {
    MaxOfIsMaximum(EventSamples(tracks, sampleRate));
  }

  /** Lines 249-250: the event at t falls in the block of blockSize samples starting at sampleIndex. */
  predicate InBlock(t: nat, sampleIndex: nat, blockSize: nat) {
    sampleIndex <= t < sampleIndex + blockSize
  }

  /** The offsets into the block of the events that fall in it, in event order. */
  function MidiWindow(samples: seq<nat>, sampleIndex: nat, blockSize: nat): seq<nat> {
    if samples == [] then []
    else
      var t := samples[|samples| - 1];
      MidiWindow(samples[..|samples| - 1], sampleIndex, blockSize)
      + (if InBlock(t, sampleIndex, blockSize) then [t - sampleIndex] else [])
  }

  lemma MidiWindowAppend(samples: seq<nat>, t: nat, sampleIndex: nat, blockSize: nat)
    ensures MidiWindow(samples + [t], sampleIndex, blockSize)
         == MidiWindow(samples, sampleIndex, blockSize) + (if InBlock(t, sampleIndex, blockSize) then [t - sampleIndex] else [])
  {
    assert (samples + [t])[..|samples|] == samples;
  }

  /**
   * A block receives exactly the events inside it, each at its offset from the
   * block's start, which is less than the block size.
   */
  lemma {:induction false} MidiWindowMembers(samples: seq<nat>, sampleIndex: nat, blockSize: nat, offset: nat)
    ensures offset in MidiWindow(samples, sampleIndex, blockSize) <==>
      exists k | 0 <= k < |samples| :: InBlock(samples[k], sampleIndex, blockSize) && offset == samples[k] - sampleIndex
    ensures offset in MidiWindow(samples, sampleIndex, blockSize) ==> offset < blockSize
    decreases |samples|
  {
    if samples != [] {
      var init := samples[..|samples| - 1];
      var t := samples[|samples| - 1];
      MidiWindowMembers(init, sampleIndex, blockSize, offset);
      if offset in MidiWindow(init, sampleIndex, blockSize) {
        var k :| 0 <= k < |init| && InBlock(init[k], sampleIndex, blockSize) && offset == init[k] - sampleIndex;
        assert samples[k] == init[k];
      }
      if exists k | 0 <= k < |samples| :: InBlock(samples[k], sampleIndex, blockSize) && offset == samples[k] - sampleIndex {
        var k :| 0 <= k < |samples| && InBlock(samples[k], sampleIndex, blockSize) && offset == samples[k] - sampleIndex;
        if k < |init| {
          assert init[k] == samples[k];
        }
      }
    }
  }

  /** Lines 243-253: the MIDI events of every track that fall in the block starting at sampleIndex. */
  method CollectMidiEvents(tracks: MidiTracks, sampleRate: real, sampleIndex: nat, blockSize: nat)
    returns (offsets: seq<nat>)
    ensures offsets == MidiWindow(EventSamples(tracks, sampleRate), sampleIndex, blockSize)
  {
    offsets := [];
    var i := 0;
    while i < |tracks|
      invariant 0 <= i <= |tracks|
      invariant offsets == MidiWindow(EventSamples(tracks[..i], sampleRate), sampleIndex, blockSize)
    {
      var midiTrack := tracks[i];
      var j := 0;
      assert EventSamples(tracks[..i], sampleRate) + TrackSamples(midiTrack[..0], sampleRate) == EventSamples(tracks[..i], sampleRate);
      while j < |midiTrack|
        invariant 0 <= j <= |midiTrack|
        invariant offsets == MidiWindow(EventSamples(tracks[..i], sampleRate) + TrackSamples(midiTrack[..j], sampleRate), sampleIndex, blockSize)
      {
        var timestampSamples := SecondsToSamples(midiTrack[j], sampleRate);
        ghost var before := EventSamples(tracks[..i], sampleRate) + TrackSamples(midiTrack[..j], sampleRate);
        TrackSamplesStep(midiTrack, sampleRate, j);
        assert EventSamples(tracks[..i], sampleRate) + TrackSamples(midiTrack[..j + 1], sampleRate) == before + [timestampSamples];
        MidiWindowAppend(before, timestampSamples, sampleIndex, blockSize);
        if timestampSamples >= sampleIndex && timestampSamples < sampleIndex + blockSize {
          offsets := offsets + [timestampSamples - sampleIndex];
        }
        assert offsets == MidiWindow(before + [timestampSamples], sampleIndex, blockSize);
        j := j + 1;
      }
      assert midiTrack[..j] == midiTrack;
      EventSamplesStep(tracks, sampleRate, i);
      i := i + 1;
    }
    assert tracks[..i] == tracks;
  }

  // ---------------------------------------------------------------------------
  // Output format and input length (lines 143-165)
  // ---------------------------------------------------------------------------

  datatype OutputFormat = OutputFormat(sampleRate: real, bitDepth: nat)

  /**
   * The sample rate and bit depth of processing and output: the first input
   * file's when there is one (the sample-rate option is then refused by the
   * command line), otherwise the option's rate and 16 bits; a bit-depth option
   * wins over both.
   */
  function ChooseOutputFormat(readers: seq<AudioFileInfo>, sampleRate: real, outputBitDepthOpt: Option<nat>)
    : (format: OutputFormat)
    ensures format.sampleRate == (if readers == [] then sampleRate else readers[0].sampleRate)
    ensures outputBitDepthOpt.Some? ==> format.bitDepth == outputBitDepthOpt.value
    ensures outputBitDepthOpt.None? && readers == [] ==> format.bitDepth == 16
    ensures outputBitDepthOpt.None? && readers != [] ==> format.bitDepth == readers[0].bitsPerSample
  {
    var rate := if readers == [] then sampleRate else readers[0].sampleRate;
    var depth := if readers == [] then 16 else readers[0].bitsPerSample;
    OutputFormat(rate, outputBitDepthOpt.GetOr(depth))
  }

  /** Line 164: the input lasts as long as the longest audio file or the MIDI file, whichever is longer. */
  function TotalInputLength(audioLength: nat, midiLength: Option<nat>): (total: nat)
    ensures audioLength <= total
    ensures midiLength.Some? ==> midiLength.value <= total
    ensures total == audioLength || (midiLength.Some? && total == midiLength.value)
  {
    match midiLength
    case None => audioLength
    case Some(m) => Max(audioLength, m)
  }

  // ---------------------------------------------------------------------------
  // Bus layout (lines 341-376)
  // ---------------------------------------------------------------------------

  /** AudioPluginInstance::BusesLayout, each bus given by its number of channels. */
  datatype BusesLayout = BusesLayout(inputBuses: seq<nat>, outputBuses: seq<nat>)

  /** getMainOutputChannels: the channels of the first output bus, 0 without one. */
  function MainOutputChannels(layout: BusesLayout): nat {
    if layout.outputBuses == [] then 0 else layout.outputBuses[0]
  }

  /** unsigned int arithmetic wraps modulo 2^32. */
  const UIntModulus: nat := 0x1_0000_0000

  function Sum(xs: seq<nat>): nat {
    if xs == [] then 0 else Sum(xs[..|xs| - 1]) + xs[|xs| - 1]
  }

  lemma SumAppend(xs: seq<nat>, x: nat)
    ensures Sum(xs + [x]) == Sum(xs) + x
  {
    assert (xs + [x])[..|xs|] == xs;
  }

  lemma ModAdd(a: nat, b: nat)
    ensures (a % UIntModulus + b) % UIntModulus == (a + b) % UIntModulus
  {
  }

  /** The channel count of each input file, in file order. */
  function ChannelCounts(readers: seq<AudioFileInfo>): (counts: seq<nat>)
    ensures |counts| == |readers|
    ensures forall k | 0 <= k < |readers| :: counts[k] == readers[k].numChannels
  {
    seq(|readers|, k requires 0 <= k < |readers| => readers[k].numChannels)
  }

  /**
   * createBusLayout: one input bus per input file with that file's channels (the
   * plugin's default input buses when there is no file), one output bus with the
   * requested channels (by default the first file's, or the plugin's main output's
   * without files), and the total channel count of the input buses.
   */
  method CreateBusLayout(defaultLayout: BusesLayout, readers: seq<AudioFileInfo>, outputChannelCountOpt: Option<nat>)
    returns (layout: BusesLayout, totalNumInputChannels: nat, totalNumOutputChannels: nat)
    ensures layout.inputBuses == (if readers == [] then defaultLayout.inputBuses else ChannelCounts(readers))
    ensures totalNumInputChannels == Sum(layout.inputBuses) % UIntModulus
    ensures totalNumOutputChannels
         == outputChannelCountOpt.GetOr(if readers == [] then MainOutputChannels(defaultLayout) else readers[0].numChannels)
    ensures layout.outputBuses == [totalNumOutputChannels]
  {
    totalNumInputChannels := 0;
    var inputBuses: seq<nat>;
    if readers == [] {
      inputBuses := defaultLayout.inputBuses;
      var i := 0;
      while i < |inputBuses|
        invariant 0 <= i <= |inputBuses|
        invariant totalNumInputChannels == Sum(inputBuses[..i]) % UIntModulus
      {
        assert inputBuses[..i + 1] == inputBuses[..i] + [inputBuses[i]];
        SumAppend(inputBuses[..i], inputBuses[i]);
        ModAdd(Sum(inputBuses[..i]), inputBuses[i]);
        totalNumInputChannels := (totalNumInputChannels + inputBuses[i]) % UIntModulus;
        i := i + 1;
      }
      assert inputBuses[..i] == inputBuses;
    } else {
      inputBuses := [];
      var i := 0;
      while i < |readers|
        invariant 0 <= i <= |readers|
        invariant inputBuses == ChannelCounts(readers)[..i]
        invariant totalNumInputChannels == Sum(inputBuses) % UIntModulus
      {
        SumAppend(inputBuses, readers[i].numChannels);
        ModAdd(Sum(inputBuses), readers[i].numChannels);
        assert ChannelCounts(readers)[..i + 1] == ChannelCounts(readers)[..i] + [readers[i].numChannels];
        inputBuses := inputBuses + [readers[i].numChannels];
        totalNumInputChannels := (totalNumInputChannels + readers[i].numChannels) % UIntModulus;
        i := i + 1;
      }
      assert ChannelCounts(readers)[..i] == ChannelCounts(readers);
    }
    totalNumOutputChannels := outputChannelCountOpt.GetOr(
      if readers == [] then MainOutputChannels(defaultLayout) else readers[0].numChannels);
    layout := BusesLayout(inputBuses, [totalNumOutputChannels]);
  }

  /** Sums of prefixes grow with the prefix and never pass the whole sum. */
  lemma {:induction false} SumPrefix(xs: seq<nat>, k: nat)
    requires k <= |xs|
    ensures Sum(xs[..k]) <= Sum(xs)
    decreases |xs| - k
  {
    if k < |xs| {
      SumPrefix(xs, k + 1);
      assert xs[..k + 1][..k] == xs[..k];
    } else {
      assert xs[..k] == xs;
    }
  }

  /** Lines 227-236: the first buffer channel input file k is read into. */
  function FirstChannel(readers: seq<AudioFileInfo>, k: nat): nat
    requires k <= |readers|
  {
    Sum(ChannelCounts(readers)[..k])
  }

  /**
   * The input files are read into consecutive, non-overlapping channel ranges,
   * in file order; when the total does not wrap, every range lies within the
   * input channel total the processing buffer is sized by.
   */
  lemma ReaderChannelsDisjoint(readers: seq<AudioFileInfo>, k: nat)
    requires k < |readers|
    ensures FirstChannel(readers, k + 1) == FirstChannel(readers, k) + readers[k].numChannels
    ensures FirstChannel(readers, k) + readers[k].numChannels <= Sum(ChannelCounts(readers))
    ensures Sum(ChannelCounts(readers)) < UIntModulus ==>
      FirstChannel(readers, k) + readers[k].numChannels <= Sum(ChannelCounts(readers)) % UIntModulus
  {
    var counts := ChannelCounts(readers);
    assert counts[..k + 1] == counts[..k] + [counts[k]];
    SumAppend(counts[..k], counts[k]);
    SumPrefix(counts, k + 1);
  }

  // ---------------------------------------------------------------------------
  // Parameters (lines 378-423)
  // ---------------------------------------------------------------------------

  /**
   * One --param argument resolved against the plugin: the name of the parameter
   * and the normalised value it is to hold, the text form converted by the
   * parameter itself once the round-trip probe has accepted it.
   */
  function CliEntry(parameters: seq<Parameter>, arg: string): (r: Result<(string, real)>)
    ensures r.Ok? ==> ProcessArguments.ParsePluginParameterArgument(arg).Ok?
    ensures r.Ok? ==> r.value.0 == ProcessArguments.ParsePluginParameterArgument(arg).value.parameterName
    ensures r.Ok? ==> GetPluginParameterByName(parameters, r.value.0).Ok?
  {
    var argument :- ProcessArguments.ParsePluginParameterArgument(arg);
    var index :- GetPluginParameterByName(parameters, argument.parameterName);
    if argument.isNormalizedValue then Ok((argument.parameterName, argument.normalizedValue))
    else if !Automation.TextRoundTrips(parameters[index]) then Err(CliTextValueUnsupported(argument.parameterName))
    else Ok((argument.parameterName, parameters[index].getValueForText(argument.textValue)))
  }

  /**
   * "<name>:<text>" for a known parameter: the parameter's own reading of the
   * text when its conversions round-trip, the text-value error otherwise.
   */
  lemma TextEntry(parameters: seq<Parameter>, name: string, text: string)
    requires ':' !in name && ':' !in text
    requires GetPluginParameterByName(parameters, name).Ok?
    ensures var param := parameters[GetPluginParameterByName(parameters, name).value];
      CliEntry(parameters, name + ":" + text)
      == if Automation.TextRoundTrips(param) then Ok((name, param.getValueForText(text)))
         else Err(CliTextValueUnsupported(name))
  {
    ProcessArguments.TextArgument(name, text);
  }

  /** "<name>:<number>:n" for a known parameter sets the number itself, without consulting the probe. */
  lemma NormalizedEntry(parameters: seq<Parameter>, name: string, number: string)
    requires ':' !in name && ':' !in number
    requires ParseFloatStrict(number).Ok? && 0.0 <= ParseFloatStrict(number).value <= 1.0
    requires GetPluginParameterByName(parameters, name).Ok?
    ensures CliEntry(parameters, name + ":" + number + ":n") == Ok((name, ParseFloatStrict(number).value))
  {
    ProcessArguments.NormalizedArgument(name, number);
  }

  /** A name the plugin does not know is refused whatever the value. */
  lemma UnknownEntry(parameters: seq<Parameter>, arg: string)
    requires ProcessArguments.ParsePluginParameterArgument(arg).Ok?
    requires forall k | 0 <= k < |parameters| ::
      parameters[k].name != ProcessArguments.ParsePluginParameterArgument(arg).value.parameterName
    ensures CliEntry(parameters, arg) == Err(UnknownParameter(ProcessArguments.ParsePluginParameterArgument(arg).value.parameterName))
  {
  }

  /** The command-line loop: each argument in turn replaces its parameter's track. */
  function MergeCli(parameters: seq<Parameter>, cliParameters: seq<string>, automation: ParameterAutomation,
                    notices: seq<string>): Result<(ParameterAutomation, seq<string>)>
    decreases |cliParameters|
  {
    if cliParameters == [] then Ok((automation, notices))
    else
      var entry :- CliEntry(parameters, cliParameters[0]);
      var name := entry.0;
      MergeCli(parameters, cliParameters[1..], automation[name := [Keyframe(0, entry.1)]],
               if name in automation then notices + [name] else notices)
  }

  /**
   * parseParameters on an already-parsed parameter file: the file's table, then
   * the command-line parameters over it, together with the names for which the
   * override notice is printed, in printing order.
   */
  function ParsedParameters(parameters: seq<Parameter>, sampleRate: real, inputLength: nat,
                            parameterFileOpt: Option<Json>, cliParameters: seq<string>)
    : Result<(ParameterAutomation, seq<string>)>
  {
    var fromFile :- FileAutomation(parameters, sampleRate, inputLength, parameterFileOpt);
    MergeCli(parameters, cliParameters, fromFile, [])
  }

  /** The table read from the parameter file, empty without one. */
  function FileAutomation(parameters: seq<Parameter>, sampleRate: real, inputLength: nat, parameterFileOpt: Option<Json>)
    : Result<ParameterAutomation>
  {
    match parameterFileOpt
    case None => Ok(map[])
    case Some(document) => Automation.ParsedAutomation(parameters, document, sampleRate, inputLength)
  }

  /**
   * The body of parseParameters' command-line loop up to the assignment: the
   * argument is parsed, its parameter looked up, and a text value converted once
   * the probe has passed. This is the executable step, with one early return per
   * throw and the probe run as its loop (SupportsTextToValueConversion); CliEntry
   * is its specification, which the functions and lemmas about the merge use since
   * they cannot call a method.
   */
  method ResolveCliParameter(parameters: seq<Parameter>, arg: string) returns (r: Result<(string, real)>)
    ensures r == CliEntry(parameters, arg)
  {
    var parsed := ProcessArguments.ParsePluginParameterArgument(arg);
    if parsed.Err? {
      return Err(parsed.error);
    }
    var argument := parsed.value;
    var found := GetPluginParameterByName(parameters, argument.parameterName);
    if found.Err? {
      return Err(found.error);
    }
    var param := parameters[found.value];
    var normalizedValue := argument.normalizedValue;
    if !argument.isNormalizedValue {
      var supported := Automation.SupportsTextToValueConversion(param);
      if !supported {
        return Err(CliTextValueUnsupported(argument.parameterName));
      }
      normalizedValue := param.getValueForText(argument.textValue);
    }
    return Ok((argument.parameterName, normalizedValue));
  }

  /** parseParameters; the notices are returned instead of being printed. */
  method ParseParameters(parameters: seq<Parameter>, sampleRate: real, inputLength: nat,
                         parameterFileOpt: Option<Json>, cliParameters: seq<string>)
    returns (r: Result<(ParameterAutomation, seq<string>)>)
    ensures r == ParsedParameters(parameters, sampleRate, inputLength, parameterFileOpt, cliParameters)
  {
    var automation: ParameterAutomation := map[];
    if parameterFileOpt.Some? {
      var fromFile := Automation.ParseAutomationDefinition(parameters, parameterFileOpt.value, sampleRate, inputLength);
      if fromFile.Err? {
        return Err(fromFile.error);
      }
      automation := fromFile.value;
    }
    var notices: seq<string> := [];
    var i := 0;
    while i < |cliParameters|
      invariant 0 <= i <= |cliParameters|
      invariant ParsedParameters(parameters, sampleRate, inputLength, parameterFileOpt, cliParameters)
             == MergeCli(parameters, cliParameters[i..], automation, notices)
    {
      assert cliParameters[i..][0] == cliParameters[i];
      assert cliParameters[i..][1..] == cliParameters[i + 1..];
      var entry := ResolveCliParameter(parameters, cliParameters[i]);
      if entry.Err? {
        return Err(entry.error);
      }
      var (parameterName, normalizedValue) := entry.value;
      if parameterName in automation {
        notices := notices + [parameterName];
      }
      automation := automation[parameterName := [Keyframe(0, normalizedValue)]];
      i := i + 1;
    }
    assert cliParameters[i..] == [];
    return Ok((automation, notices));
  }

  /** Every command-line argument, resolved on its own. */
  function CliEntries(parameters: seq<Parameter>, cliParameters: seq<string>): (results: seq<Result<(string, real)>>)
    ensures |results| == |cliParameters|
    ensures forall k | 0 <= k < |cliParameters| :: results[k] == CliEntry(parameters, cliParameters[k])
  {
    seq(|cliParameters|, k requires 0 <= k < |cliParameters| => CliEntry(parameters, cliParameters[k]))
  }

  /** MergeCli on arguments already resolved: the first failure ends the loop. */
  function MergeResults(results: seq<Result<(string, real)>>, automation: ParameterAutomation, notices: seq<string>)
    : Result<(ParameterAutomation, seq<string>)>
    decreases |results|
  {
    if results == [] then Ok((automation, notices))
    else
      var entry :- results[0];
      var name := entry.0;
      MergeResults(results[1..], automation[name := [Keyframe(0, entry.1)]],
                   if name in automation then notices + [name] else notices)
  }

  /** Resolving an argument has no effects, so resolving them all first and then merging is MergeCli. */
  lemma {:induction false} MergeCliReads(parameters: seq<Parameter>, cliParameters: seq<string>,
                                         automation: ParameterAutomation, notices: seq<string>)
    ensures MergeCli(parameters, cliParameters, automation, notices)
         == MergeResults(CliEntries(parameters, cliParameters), automation, notices)
    decreases |cliParameters|
  {
    if cliParameters != [] {
      var results := CliEntries(parameters, cliParameters);
      assert CliEntries(parameters, cliParameters[1..]) == results[1..];
      if results[0].Ok? {
        var name := results[0].value.0;
        MergeCliReads(parameters, cliParameters[1..], automation[name := [Keyframe(0, results[0].value.1)]],
                      if name in automation then notices + [name] else notices);
      }
    }
  }

  predicate AllResolved(results: seq<Result<(string, real)>>) {
    forall k | 0 <= k < |results| :: results[k].Ok?
  }

  function ResolvedEntries(results: seq<Result<(string, real)>>): (entries: seq<(string, real)>)
    requires AllResolved(results)
    ensures |entries| == |results|
    ensures forall k | 0 <= k < |results| :: Ok(entries[k]) == results[k]
  {
    seq(|results|, k requires 0 <= k < |results| => results[k].value)
  }

  /** The loop over already-resolved entries. */
  function MergeEntries(entries: seq<(string, real)>, automation: ParameterAutomation, notices: seq<string>)
    : (ParameterAutomation, seq<string>)
    decreases |entries|
  {
    if entries == [] then (automation, notices)
    else
      var name := entries[0].0;
      MergeEntries(entries[1..], automation[name := [Keyframe(0, entries[0].1)]],
                   if name in automation then notices + [name] else notices)
  }

  /** The first failing result, when there is one, is the merge's error. */
  predicate FirstFailure(results: seq<Result<(string, real)>>, k: nat, error: Error) {
    k < |results| && (forall j | 0 <= j < k :: results[j].Ok?) && results[k] == Err(error)
  }

  /**
   * The command-line parameters are accepted exactly when each of them resolves;
   * then they are merged in order, and otherwise the first one that does not
   * resolve decides the error.
   */
  lemma {:induction false} MergeResultsSucceeds(results: seq<Result<(string, real)>>,
                                                automation: ParameterAutomation, notices: seq<string>)
    ensures MergeResults(results, automation, notices).Ok? <==> AllResolved(results)
    ensures AllResolved(results) ==>
      MergeResults(results, automation, notices) == Ok(MergeEntries(ResolvedEntries(results), automation, notices))
    ensures MergeResults(results, automation, notices).Err? ==>
      exists k :: FirstFailure(results, k, MergeResults(results, automation, notices).error)
    decreases |results|
  {
    if results != [] {
      var rest := results[1..];
      assert forall k | 0 <= k < |rest| :: rest[k] == results[k + 1];
      if results[0].Ok? {
        var name := results[0].value.0;
        var automation' := automation[name := [Keyframe(0, results[0].value.1)]];
        var notices' := if name in automation then notices + [name] else notices;
        MergeResultsSucceeds(rest, automation', notices');
        if AllResolved(results) {
          assert ResolvedEntries(results)[1..] == ResolvedEntries(rest);
        }
        if !AllResolved(rest) {
          var k :| 0 <= k < |rest| && rest[k].Err?;
          assert results[k + 1].Err?;
        }
        if MergeResults(results, automation, notices).Err? {
          var error := MergeResults(results, automation, notices).error;
          assert MergeResults(results, automation, notices) == MergeResults(rest, automation', notices');
          var k: nat :| FirstFailure(rest, k, error);
          assert FirstFailure(results, k + 1, error) by {
            forall j | 0 <= j < k + 1 ensures results[j].Ok? {
              if j > 0 {
                assert results[j] == rest[j - 1];
              }
            }
          }
        }
      } else {
        assert FirstFailure(results, 0, results[0].error);
      }
    }
  }

  /**
   * In the argument's own terms: the command line is accepted exactly when every
   * argument resolves, and the first that does not decides the error.
   */
  lemma MergeCliSucceeds(parameters: seq<Parameter>, cliParameters: seq<string>,
                         automation: ParameterAutomation, notices: seq<string>)
    ensures var results := CliEntries(parameters, cliParameters);
      var merged := MergeCli(parameters, cliParameters, automation, notices);
      (merged.Ok? <==> AllResolved(results)) &&
      (AllResolved(results) ==> merged == Ok(MergeEntries(ResolvedEntries(results), automation, notices))) &&
      (merged.Err? ==> exists k :: FirstFailure(results, k, merged.error))
  {
    MergeCliReads(parameters, cliParameters, automation, notices);
    MergeResultsSucceeds(CliEntries(parameters, cliParameters), automation, notices);
  }

  function EntryNames(entries: seq<(string, real)>): set<string> {
    set k | 0 <= k < |entries| :: entries[k].0
  }

  /** Every command-line track is a single keyframe, so merging keeps a table playable. */
  lemma {:induction false} MergeResultsPlayable(results: seq<Result<(string, real)>>, automation: ParameterAutomation,
                                                notices: seq<string>)
    requires IsPlayable(automation)
    requires MergeResults(results, automation, notices).Ok?
    ensures IsPlayable(MergeResults(results, automation, notices).value.0)
    decreases |results|
  {
    if results != [] {
      var entry := results[0].value;
      var name := entry.0;
      var next := automation[name := [Keyframe(0, entry.1)]];
      assert IsPlayableTrack([Keyframe(0, entry.1)]);
      MergeResultsPlayable(results[1..], next, if name in automation then notices + [name] else notices);
    }
  }

  /**
   * With the checked reading of the parameter file, the table parseParameters
   * hands to execute can always be evaluated, which is what ProcessBlocks demands.
   */
  lemma CheckedParametersPlayable(parameters: seq<Parameter>, sampleRate: real, inputLength: nat,
                                  document: Json, cliParameters: seq<string>)
    requires document.Object? ==> IsMemberList(document.members)
    requires Automation.CheckedAutomation(parameters, document, sampleRate, inputLength).Ok?
    requires MergeCli(parameters, cliParameters,
                      Automation.CheckedAutomation(parameters, document, sampleRate, inputLength).value, []).Ok?
    ensures IsPlayable(MergeCli(parameters, cliParameters,
                                Automation.CheckedAutomation(parameters, document, sampleRate, inputLength).value, []).value.0)
  {
    var fromFile := Automation.CheckedAutomation(parameters, document, sampleRate, inputLength).value;
    MergeCliReads(parameters, cliParameters, fromFile, []);
    MergeResultsPlayable(CliEntries(parameters, cliParameters), fromFile, []);
  }

  /** The table holds the names it held before and every name given on the command line. */
  lemma {:induction false} MergeKeys(entries: seq<(string, real)>, automation: ParameterAutomation, notices: seq<string>)
    ensures MergeEntries(entries, automation, notices).0.Keys == automation.Keys + EntryNames(entries)
    decreases |entries|
  {
    if entries != [] {
      var name := entries[0].0;
      var automation' := automation[name := [Keyframe(0, entries[0].1)]];
      var notices' := if name in automation then notices + [name] else notices;
      MergeKeys(entries[1..], automation', notices');
      assert EntryNames(entries) == {name} + EntryNames(entries[1..]) by {
        forall n | n in EntryNames(entries) ensures n in {name} + EntryNames(entries[1..]) {
          var k :| 0 <= k < |entries| && entries[k].0 == n;
          if k > 0 {
            assert entries[1..][k - 1] == entries[k];
          }
        }
        forall n | n in EntryNames(entries[1..]) ensures n in EntryNames(entries) {
          var k :| 0 <= k < |entries[1..]| && entries[1..][k].0 == n;
          assert entries[k + 1] == entries[1..][k];
        }
      }
    }
  }

  /** A name not given on the command line keeps the track it had (the file's). */
  lemma {:induction false} MergeKeepsOthers(entries: seq<(string, real)>, automation: ParameterAutomation,
                                            notices: seq<string>, name: string)
    requires name in automation
    requires forall k | 0 <= k < |entries| :: entries[k].0 != name
    ensures name in MergeEntries(entries, automation, notices).0
    ensures MergeEntries(entries, automation, notices).0[name] == automation[name]
    decreases |entries|
  {
    if entries != [] {
      var n0 := entries[0].0;
      var automation' := automation[n0 := [Keyframe(0, entries[0].1)]];
      var notices' := if n0 in automation then notices + [n0] else notices;
      assert forall k | 0 <= k < |entries[1..]| :: entries[1..][k] == entries[k + 1];
      MergeKeepsOthers(entries[1..], automation', notices', name);
    }
  }

  /** The last command-line entry for a name decides its track: one keyframe at 0 with that entry's value. */
  lemma {:induction false} MergeLastWins(entries: seq<(string, real)>, automation: ParameterAutomation,
                                         notices: seq<string>, k: nat)
    requires k < |entries|
    requires forall j | k < j < |entries| :: entries[j].0 != entries[k].0
    ensures entries[k].0 in MergeEntries(entries, automation, notices).0
    ensures MergeEntries(entries, automation, notices).0[entries[k].0] == [Keyframe(0, entries[k].1)]
    decreases |entries|
  {
    var n0 := entries[0].0;
    var automation' := automation[n0 := [Keyframe(0, entries[0].1)]];
    var notices' := if n0 in automation then notices + [n0] else notices;
    assert forall j | 0 <= j < |entries[1..]| :: entries[1..][j] == entries[j + 1];
    if k == 0 {
      MergeKeepsOthers(entries[1..], automation', notices', n0);
    } else {
      MergeLastWins(entries[1..], automation', notices', k - 1);
    }
  }

  /** Entry k names a parameter that the table already holds: from the file, or from an earlier entry. */
  predicate Overrides(entries: seq<(string, real)>, keys: set<string>, k: nat)
    requires k < |entries|
  {
    entries[k].0 in keys || exists j | 0 <= j < k :: entries[j].0 == entries[k].0
  }

  /**
   * The override notice is printed for a name exactly when some entry for it
   * finds the name already in the table: given in the file, or given earlier on
   * the command line.
   */
  lemma {:induction false} MergeNotices(entries: seq<(string, real)>, automation: ParameterAutomation,
                                        notices: seq<string>, name: string)
    ensures name in MergeEntries(entries, automation, notices).1 <==>
      name in notices ||
      exists k | 0 <= k < |entries| :: entries[k].0 == name && Overrides(entries, automation.Keys, k)
    decreases |entries|
  {
    if entries != [] {
      var n0 := entries[0].0;
      var rest := entries[1..];
      var automation' := automation[n0 := [Keyframe(0, entries[0].1)]];
      var notices' := if n0 in automation then notices + [n0] else notices;
      MergeNotices(rest, automation', notices', name);
      assert forall j | 0 <= j < |rest| :: rest[j] == entries[j + 1];
      assert automation'.Keys == automation.Keys + {n0};
      if exists k | 0 <= k < |rest| :: rest[k].0 == name && Overrides(rest, automation'.Keys, k) {
        var k :| 0 <= k < |rest| && rest[k].0 == name && Overrides(rest, automation'.Keys, k);
        if name in automation.Keys {
          assert Overrides(entries, automation.Keys, k + 1);
        } else if name == n0 {
          assert entries[0].0 == entries[k + 1].0;
          assert Overrides(entries, automation.Keys, k + 1);
        } else {
          var j :| 0 <= j < k && rest[j].0 == rest[k].0;
          assert entries[j + 1].0 == entries[k + 1].0;
          assert Overrides(entries, automation.Keys, k + 1);
        }
      }
      if exists k | 0 <= k < |entries| :: entries[k].0 == name && Overrides(entries, automation.Keys, k) {
        var k :| 0 <= k < |entries| && entries[k].0 == name && Overrides(entries, automation.Keys, k);
        if k == 0 {
          assert name in notices';
        } else if name in automation.Keys {
          assert Overrides(rest, automation'.Keys, k - 1);
        } else {
          var j :| 0 <= j < k && entries[j].0 == entries[k].0;
          if j == 0 {
            assert Overrides(rest, automation'.Keys, k - 1);
          } else {
            assert rest[j - 1].0 == rest[k - 1].0;
            assert Overrides(rest, automation'.Keys, k - 1);
          }
        }
      }
    }
  }

  // ---------------------------------------------------------------------------
  // The processing loop (lines 221-275)
  // ---------------------------------------------------------------------------

  /**
   * What one pass of the loop decides besides the audio itself: where the block
   * starts in the input, the MIDI offsets handed to the plugin with it, how many
   * leading output samples are dropped as latency, and how many are written.
   */
  datatype Block = Block(sampleIndex: nat, midiOffsets: seq<nat>, startSample: nat, samplesWritten: nat)

  /** Lines 262-266: the leading samples of a block dropped while latency is still owed. */
  function StartSample(latency: nat, samplesSkipped: nat, blockSize: nat): nat {
    if samplesSkipped < latency then Min(latency - samplesSkipped, blockSize) else 0
  }

  /**
   * The block starting at sampleIndex, described without the loop: the latency
   * still owed there is what lies beyond sampleIndex, and the rest is written.
   */
  function BlockAt(events: seq<nat>, latency: nat, blockSize: nat, sampleIndex: nat): Block {
    var startSample := if sampleIndex >= latency then 0 else Min(latency - sampleIndex, blockSize);
    Block(sampleIndex, MidiWindow(events, sampleIndex, blockSize), startSample, blockSize - startSample)
  }

  /** The number of blocks of blockSize samples it takes to cover length samples. */
  function BlockCount(length: nat, blockSize: nat): nat
    requires blockSize > 0
  {
    (length + blockSize - 1) / blockSize
  }

  /** The first count blocks, block k starting at sample k * blockSize. */
  function Blocks(events: seq<nat>, latency: nat, blockSize: nat, count: nat): (blocks: seq<Block>)
    ensures |blocks| == count
    ensures forall k | 0 <= k < count :: blocks[k] == BlockAt(events, latency, blockSize, k * blockSize)
  {
    seq(count, k requires 0 <= k < count => BlockAt(events, latency, blockSize, k * blockSize))
  }

  /**
   * The blocks execute processes: enough to cover the input and the plugin's
   * latency; events are the MIDI event times in samples.
   */
  function Schedule(events: seq<nat>, totalInputLength: nat, latency: nat, blockSize: nat): seq<Block>
    requires blockSize > 0
  {
    Blocks(events, latency, blockSize, BlockCount(totalInputLength + latency, blockSize))
  }

  lemma MulMonotone(a: nat, b: nat, c: nat)
    requires a <= b
    ensures a * c <= b * c
  {
    assert b * c == a * c + (b - a) * c;
  }

  lemma NextBlockStart(count: nat, blockSize: nat)
    ensures (count + 1) * blockSize == count * blockSize + blockSize
  {
  }

  /** The block count is a ceiling: the last block starts inside the range and ends at or past it. */
  lemma BlockCountBounds(length: nat, blockSize: nat)
    requires blockSize > 0
    ensures var count := BlockCount(length, blockSize);
      (count == 0 <==> length == 0) &&
      (count > 0 ==> (count - 1) * blockSize < length <= count * blockSize)
  {
    var count := BlockCount(length, blockSize);
    assert count * blockSize <= length + blockSize - 1 < count * blockSize + blockSize;
    if count > 0 {
      NextBlockStart(count - 1, blockSize);
    }
  }

  /** Any count whose blocks end exactly past a range is its block count. */
  lemma BlockCountUnique(length: nat, blockSize: nat, count: nat)
    requires blockSize > 0
    requires (count == 0 && length == 0) || (count > 0 && (count - 1) * blockSize < length <= count * blockSize)
    ensures count == BlockCount(length, blockSize)
  {
    var other := BlockCount(length, blockSize);
    BlockCountBounds(length, blockSize);
    if count < other {
      MulMonotone(count, other - 1, blockSize);
    } else if other < count {
      MulMonotone(other, count - 1, blockSize);
    }
  }

  /** How the loop keeps its latency count: it has dropped all latency before the block. */
  lemma SkippedBefore(latency: nat, sampleIndex: nat, blockSize: nat)
    ensures StartSample(latency, Min(latency, sampleIndex), blockSize)
         == (if sampleIndex >= latency then 0 else Min(latency - sampleIndex, blockSize))
    ensures Min(latency, sampleIndex) + StartSample(latency, Min(latency, sampleIndex), blockSize)
         == Min(latency, sampleIndex + blockSize)
  {
  }

  /** The leading samples dropped as latency over a run of blocks. */
  function SkippedTotal(blocks: seq<Block>): nat {
    if blocks == [] then 0 else SkippedTotal(blocks[..|blocks| - 1]) + blocks[|blocks| - 1].startSample
  }

  /** The samples written to the output over a run of blocks. */
  function WrittenTotal(blocks: seq<Block>): nat {
    if blocks == [] then 0 else WrittenTotal(blocks[..|blocks| - 1]) + blocks[|blocks| - 1].samplesWritten
  }

  /** Over the first count blocks the latency is dropped first, and every other sample is written. */
  lemma {:induction false} BlocksTotals(events: seq<nat>, latency: nat, blockSize: nat, count: nat)
    ensures var blocks := Blocks(events, latency, blockSize, count);
      SkippedTotal(blocks) == Min(latency, count * blockSize) &&
      WrittenTotal(blocks) == count * blockSize - Min(latency, count * blockSize)
  {
    if count > 0 {
      var blocks := Blocks(events, latency, blockSize, count);
      var start := (count - 1) * blockSize;
      assert blocks[..count - 1] == Blocks(events, latency, blockSize, count - 1);
      BlocksTotals(events, latency, blockSize, count - 1);
      SkippedBefore(latency, start, blockSize);
      NextBlockStart(count - 1, blockSize);
    }
  }

  /**
   * The output file: exactly the latency is dropped, and what is written covers
   * the whole input and overshoots it by less than one block.
   */
  lemma OutputLength(events: seq<nat>, totalInputLength: nat, latency: nat, blockSize: nat)
    requires blockSize > 0
    ensures var blocks := Schedule(events, totalInputLength, latency, blockSize);
      SkippedTotal(blocks) == latency &&
      WrittenTotal(blocks) == |blocks| * blockSize - latency &&
      totalInputLength <= WrittenTotal(blocks) < totalInputLength + blockSize
  {
    var count := BlockCount(totalInputLength + latency, blockSize);
    BlockCountBounds(totalInputLength + latency, blockSize);
    BlocksTotals(events, latency, blockSize, count);
    if count > 0 {
      NextBlockStart(count - 1, blockSize);
    }
  }

  /** The block of blockSize samples starting at k * blockSize holds t exactly when k is t / blockSize. */
  lemma BlockOfSample(t: nat, k: nat, blockSize: nat)
    requires blockSize > 0
    ensures InBlock(t, k * blockSize, blockSize) <==> k == t / blockSize
  {
    var q := t / blockSize;
    assert q * blockSize <= t < q * blockSize + blockSize;
    if k < q {
      MulMonotone(k + 1, q, blockSize);
    } else if k > q {
      MulMonotone(q + 1, k, blockSize);
    }
  }

  /** An event inside a block is handed to the plugin at its offset into the block. */
  lemma EventInWindow(events: seq<nat>, sampleIndex: nat, blockSize: nat, t: nat)
    requires t in events && InBlock(t, sampleIndex, blockSize)
    ensures t - sampleIndex in MidiWindow(events, sampleIndex, blockSize)
  {
    var i :| 0 <= i < |events| && events[i] == t;
    MidiWindowMembers(events, sampleIndex, blockSize, t - sampleIndex);
  }

  /** The block that holds t is the one a sample-by-block division names. */
  lemma OwnBlock(t: nat, count: nat, blockSize: nat)
    requires blockSize > 0
    ensures InBlock(t, (t / blockSize) * blockSize, blockSize)
    ensures t % blockSize == t - (t / blockSize) * blockSize
    ensures t < count * blockSize ==> t / blockSize < count
  {
    if t < count * blockSize && t / blockSize >= count {
      MulMonotone(count, t / blockSize, blockSize);
    }
  }

  /**
   * MIDI delivery: an event reaches the plugin in the one block that contains it,
   * at its offset into that block, when that block is processed at all.
   */
  lemma MidiDelivery(events: seq<nat>, totalInputLength: nat, latency: nat, blockSize: nat, t: nat)
    requires blockSize > 0
    ensures var blocks := Schedule(events, totalInputLength, latency, blockSize);
      forall k | 0 <= k < |blocks| :: InBlock(t, blocks[k].sampleIndex, blockSize) <==> k == t / blockSize
    ensures var blocks := Schedule(events, totalInputLength, latency, blockSize);
      t in events && t < |blocks| * blockSize ==>
        t / blockSize < |blocks| && t % blockSize in blocks[t / blockSize].midiOffsets
  {
    var blocks := Schedule(events, totalInputLength, latency, blockSize);
    forall k | 0 <= k < |blocks| ensures InBlock(t, blocks[k].sampleIndex, blockSize) <==> k == t / blockSize {
      BlockOfSample(t, k, blockSize);
    }
    OwnBlock(t, |blocks|, blockSize);
    if t in events && t < |blocks| * blockSize {
      EventInWindow(events, (t / blockSize) * blockSize, blockSize, t);
    }
  }

  /** Every parameter name the automation table mentions belongs to the plugin. */
  predicate NamesKnown(parameters: seq<Parameter>, automation: ParameterAutomation) {
    forall name | name in automation :: GetPluginParameterByName(parameters, name).Ok?
  }

  /**
   * One pass of the loop body, lines 237-274: the block's MIDI events, the automation
   * applied at its first sample, and the latency dropped from its output.
   */
  method ProcessBlock(plugin: Instance, automation: ParameterAutomation, tracks: MidiTracks, sampleRate: real,
                      latency: nat, blockSize: nat, sampleIndex: nat, samplesSkipped: nat)
    returns (r: Result<Block>)
    requires plugin.Valid() && IsPlayable(automation)
    modifies plugin
    ensures plugin.Valid()
    ensures r.Err? <==> !NamesKnown(plugin.parameters, automation)
    ensures r.Ok? ==> plugin.values == Automation.Applied(plugin.parameters, old(plugin.values), automation, sampleIndex)
    ensures r.Ok? ==>
      var startSample := StartSample(latency, samplesSkipped, blockSize);
      r.value == Block(sampleIndex, MidiWindow(EventSamples(tracks, sampleRate), sampleIndex, blockSize), startSample,
                       if startSample < blockSize then blockSize - startSample else 0)
  {
    var midiOffsets := CollectMidiEvents(tracks, sampleRate, sampleIndex, blockSize);
    var applied := Automation.ApplyParameters(plugin, automation, sampleIndex);
    if applied.Err? {
      return Err(applied.error);
    }
    var startSample := 0;
    if samplesSkipped < latency {
      startSample := Min(latency - samplesSkipped, blockSize);
    }
    var samplesWritten := 0;
    if startSample < blockSize {
      samplesWritten := blockSize - startSample;
    }
    return Ok(Block(sampleIndex, midiOffsets, startSample, samplesWritten));
  }

  /**
   * The loop of execute, lines 221-275, without the audio: each block collects its
   * MIDI events, applies the automation at its start, and drops latency before
   * writing. Reading the input files and the plugin's processBlock are not modelled.
   */
  method ProcessBlocks(plugin: Instance, automation: ParameterAutomation, tracks: MidiTracks, sampleRate: real,
                       totalInputLength: nat, latency: nat, blockSize: nat)
    returns (r: Result<seq<Block>>)
    requires plugin.Valid() && IsPlayable(automation) && blockSize > 0
    modifies plugin
    ensures plugin.Valid()
    ensures r.Ok? ==> r.value == Schedule(EventSamples(tracks, sampleRate), totalInputLength, latency, blockSize)
    ensures r.Err? <==> 0 < totalInputLength + latency && !NamesKnown(plugin.parameters, automation)
    ensures r.Ok? && r.value == [] ==> plugin.values == old(plugin.values)
    ensures r.Ok? && r.value != [] ==>
      plugin.values == Automation.Applied(plugin.parameters, old(plugin.values), automation, r.value[|r.value| - 1].sampleIndex)
  {
    ghost var events := EventSamples(tracks, sampleRate);
    ghost var initial := plugin.values;
    var blocks: seq<Block> := [];
    var sampleIndex: nat := 0;
    var samplesSkipped: nat := 0;
    while sampleIndex < totalInputLength + latency
      invariant plugin.Valid() && |initial| == |plugin.parameters|
      invariant sampleIndex == |blocks| * blockSize && samplesSkipped == Min(latency, sampleIndex)
      invariant forall k | 0 <= k < |blocks| :: blocks[k] == BlockAt(events, latency, blockSize, k * blockSize)
      invariant blocks != [] ==> (|blocks| - 1) * blockSize < totalInputLength + latency
      invariant blocks == [] ==> plugin.values == initial
      invariant blocks != [] ==> NamesKnown(plugin.parameters, automation)
      invariant blocks != [] ==>
        plugin.values == Automation.Applied(plugin.parameters, initial, automation, blocks[|blocks| - 1].sampleIndex)
      decreases totalInputLength + latency - sampleIndex
    {
      var block := ProcessBlock(plugin, automation, tracks, sampleRate, latency, blockSize, sampleIndex, samplesSkipped);
      if block.Err? {
        return Err(block.error);
      }
      if blocks != [] {
        Automation.AppliedAgain(plugin.parameters, initial, automation, blocks[|blocks| - 1].sampleIndex, sampleIndex);
      }
      SkippedBefore(latency, sampleIndex, blockSize);
      NextBlockStart(|blocks|, blockSize);
      assert block.value == BlockAt(events, latency, blockSize, |blocks| * blockSize);
      blocks := blocks + [block.value];
      samplesSkipped := samplesSkipped + block.value.startSample;
      sampleIndex := sampleIndex + blockSize;
    }
    BlockCountUnique(totalInputLength + latency, blockSize, |blocks|);
    assert blocks == Blocks(events, latency, blockSize, |blocks|);
    return Ok(blocks);
  }

  // ---------------------------------------------------------------------------
  // The MIDI length, lines 325-336, and the last event
  // ---------------------------------------------------------------------------

  /**
   * As written, the MIDI length is the sample of the last event, so when the audio
   * is no longer, the latency is zero and that sample falls on a block boundary,
   * the loop stops just before it: no processed block holds the last event.
   */
  lemma LastEventMissed(events: seq<nat>, audioLength: nat, blockSize: nat)
    requires blockSize > 0 && events != []
    requires audioLength <= MaxOf(events) && MaxOf(events) % blockSize == 0
    ensures MaxOf(events) in events
    ensures var blocks := Schedule(events, TotalInputLength(audioLength, Some(MaxOf(events))), 0, blockSize);
      |blocks| * blockSize == MaxOf(events) &&
      forall k | 0 <= k < |blocks| :: !InBlock(MaxOf(events), blocks[k].sampleIndex, blockSize)
  {
    var t := MaxOf(events);
    MaxOfIsMaximum(events);
    var count := t / blockSize;
    assert count * blockSize == t;
    if count > 0 {
      NextBlockStart(count - 1, blockSize);
    }
    BlockCountUnique(t, blockSize, count);
    MidiDelivery(events, t, 0, blockSize, t);
    forall k | 0 <= k < count ensures !InBlock(t, k * blockSize, blockSize) {
      BlockOfSample(t, k, blockSize);
    }
  }

  /**
   * The counterexample in numbers: one event at 1 s, at 4 samples per second,
   * with no audio and blocks of 4 samples. The MIDI length is 4, one block
   * [0, 4) is processed, and the event at sample 4 is never handed to the plugin.
   */
  lemma LastEventMissedExample()
    ensures EventSamples([[1.0]], 4.0) == [4]
    ensures Schedule([4], TotalInputLength(0, Some(MaxOf([4]))), 0, 4) == [Block(0, [], 0, 4)]
  {
    assert TrackSamples([1.0], 4.0) == [4];
    assert [] + [4] == [4];
    var count := BlockCount(4, 4);
    assert count == 1;
    assert MidiWindow([4], 0, 4) == [];
    assert Blocks([4], 0, 4, 1)[0] == Block(0, [], 0, 4);
  }

  /**
   * The length that reaches every event: one past the last event's sample, or
   * zero when there are no events.
   */
  function MidiEndLength(events: seq<nat>): (length: nat)
    ensures forall k | 0 <= k < |events| :: events[k] < length
    ensures length == 0 || length - 1 in events
  {
    if events == [] then 0 else (MaxOfIsMaximum(events); MaxOf(events) + 1)
  }

  /**
   * With the corrected MIDI length every event is handed to the plugin, in the
   * block that contains it and at its offset into that block, whatever the audio
   * length, the latency and the block size.
   */
  lemma EveryEventDelivered(tracks: MidiTracks, sampleRate: real, audioLength: nat, latency: nat,
                            blockSize: nat, t: nat)
    requires blockSize > 0 && t in EventSamples(tracks, sampleRate)
    ensures var events := EventSamples(tracks, sampleRate);
      var blocks := Schedule(events, TotalInputLength(audioLength, Some(MidiEndLength(events))), latency, blockSize);
      t / blockSize < |blocks| && t % blockSize in blocks[t / blockSize].midiOffsets
  {
    var events := EventSamples(tracks, sampleRate);
    var total := TotalInputLength(audioLength, Some(MidiEndLength(events)));
    var i :| 0 <= i < |events| && events[i] == t;
    BlockCountBounds(total + latency, blockSize);
    MidiDelivery(events, total, latency, blockSize, t);
  }
}
