# Plugalyzer automation engine and process command, in Dafny

Plugalyzer is a command-line host for audio plugins. Its `process` command reads
audio and MIDI input files, loads a plugin, and runs the input through it block by
block. While it does so it applies parameter automation, then writes the result to
a WAV file. This project models the part of the command that is pure bookkeeping
and proves properties of it:

- **Automation** (`Source/Automation.cpp`, `Source/Automation.h`):
  - the keyframe-time grammar: a sample index, `"<seconds>s"` or `"<percent>%"`;
  - how a parameter value is taken from a JSON number or text;
  - the probe that decides whether a parameter's text conversion can be trusted;
  - how a parsed automation document becomes a table that maps parameter names to
    keyframe tracks;
  - the linear interpolation that `applyParameters` performs at a sample index.
- **Utilities** (`Source/Utils.cpp`):
  - the conversion from seconds to samples;
  - the strict number parsers;
  - the lookup of a parameter by name.
- **The process command** (`Source/ProcessCommand.cpp`):
  - the `--param` argument grammar;
  - the bit-depth validator;
  - the merge of command-line parameters over the parameter file, with its override
    notice;
  - the input and output bus layout and its channel totals;
  - the input length, taken from the audio files and the MIDI file;
  - the processing loop's bookkeeping, for blocks, latency and MIDI windows.

The C++ library calls the engine depends on are modelled in separate modules:

| module | models |
|---|---|
| `CStdlib` | `std::stod`/`stof`/`stoul`/`stoi`, `std::round` and the `size_t` cast |
| `JuceText` | `juce::String::trim` and `StringArray::addTokens` splitting on `:` |
| `Json` | an already-parsed nlohmann JSON value |
| `Plugin` | the plugin, a class holding its parameters and their live values |

Each of these is a thin, explicit model, not a library binding. Failures the C++
code raises as exceptions appear as `Outcomes.Result` errors, one `Error`
constructor per exception.

How the C++ state maps to the model:

- A `std::map<size_t, float>` keyframe track is its ascending iteration order: a
  sequence of keyframes with strictly increasing times. That order is what
  `std::upper_bound` walks.
- The table of tracks is a Dafny `map`.
- The plugin is the class `Plugin.Instance`. Its `values` field is what
  `setValue` updates.
- Loops in the source are methods with loops:
  - `Automation.ParseAutomationDefinition`;
  - `Automation.ApplyParameters`;
  - `Automation.SupportsTextToValueConversion`;
  - `ProcessCommand.ParseParameters`;
  - `ProcessCommand.CreateAudioFileReaders`;
  - `ProcessCommand.ReadMidiFileLength`;
  - `ProcessCommand.CreateBusLayout`;
  - `ProcessCommand.CollectMidiEvents`;
  - `ProcessCommand.ProcessBlocks`.
- Each of those methods is proved equal to a specification function.
  ApplyParameters is the exception: it equals `Applied` only when it succeeds.
  When it fails, its contract says only that each value is unchanged or already
  applied. The lemmas state what the specification functions mean.

## Model

| member | source | states |
|---|---|---|
| `CStdlib.ParseUnsignedPrefix` | Source/Automation.cpp:96-101 | A successful std::stoul read stops at the end of a digit run: the last character it consumed is a digit and the next one is not. |
| `CStdlib.ParseIntPrefix` | Source/ProcessCommand.cpp:94 | A successful std::stoi read also ends at the end of a digit run. |
| `CStdlib.ParseRealPrefix` | Source/Automation.cpp:80-86 | A successful std::stod read consumes a non-empty prefix that is not followed by a digit. |
| `CStdlib.UnsignedPrefixOfDecimal` | Source/Automation.cpp:98 | std::stoul reads the decimal form of any n back as n, whatever non-digit text follows. |
| `CStdlib.IntPrefixOfDecimal` | Source/ProcessCommand.cpp:94 | std::stoi reads the decimal form of any n back as n, whatever non-digit text follows. |
| `CStdlib.RealPrefixOfInteger` | Source/Automation.cpp:82 | std::stod reads an integer's decimal form as that integer, when it is not followed by a digit or a point. |
| `CStdlib.RealPrefixOfFraction` | Source/Automation.cpp:82 | std::stod reads "n.f" as n plus the value of the fraction digits f, consuming exactly that text. |
| `CStdlib.TruncTowardZero` | Source/Utils.cpp:3 | Conversion of a double to an integer truncates toward zero, on both signs. |
| `CStdlib.RoundHalfAwayFromZero` | Source/Automation.cpp:91 | std::round gives the nearest integer, and a tie goes away from zero. |
| `CStdlib.CastToSize` | Source/Utils.cpp:3 | The size_t cast is below 2^64 and is the floor of any non-negative value in range. |
| `JuceText.Trim` | Source/Automation.cpp:70 | trim leaves a string with no white space at either end, and never a longer one. |
| `JuceText.TrimOfPadded` | Source/Automation.cpp:70 | Trimming white space around an already trimmed core gives the core back exactly. |
| `JuceText.Pieces` | Source/ProcessCommand.cpp:25-26 | Splitting on ':' gives at least one piece, and no piece contains ':'. |
| `JuceText.SplitOnColons` | Source/ProcessCommand.cpp:25-26 | addTokens yields no tokens exactly for the empty string, and no token contains ':'. |
| `JuceText.JoinPieces` | Source/ProcessCommand.cpp:25-26 | Joining the pieces with ':' rebuilds the original string. |
| `JuceText.PiecesOfJoin` | Source/ProcessCommand.cpp:25-26 | Splitting colon-free tokens after joining them gives the same tokens back. |
| `Json.MemberKeysDistinct` | Source/Automation.cpp:11 | The members of a JSON object, in std::map order, have pairwise distinct keys. |
| `Json.AsObject` | Source/Automation.cpp:11 | Conversion to a map succeeds exactly for an object and gives its members; anything else is refused as not an object. |
| `Plugin.Instance.constructor` | Source/Automation.cpp:125-126 | A plugin starts with its parameters and one live value for each. |
| `Plugin.Instance.SetValue` | Source/Automation.cpp:164 | setValue changes the value of that one parameter and nothing else. |
| `Utils.SecondsToSamples` | Source/Utils.cpp:3 | The sample position is below 2^64, and is the floor of seconds times rate when that product is in range. |
| `Utils.ParseFloatStrict` | Source/Utils.cpp:5-16 | Accepted exactly when the float read consumes the whole string, and then gives that read's value; otherwise the invalid-number error. |
| `Utils.ParseULongStrict` | Source/Utils.cpp:5-11 | Accepted exactly when the unsigned read consumes the whole string, and then gives that read's value; otherwise the invalid-number error. |
| `Utils.FloatStrictReadsDecimal` | Source/Utils.cpp:14-16 | The strict float parser accepts "n" and "n.f" and reads them as their values. |
| `Utils.FloatStrictRejectsTrailingText` | Source/Utils.cpp:8-10 | A number followed by other text is read in part but refused by the strict parser. |
| `Utils.ULongStrictReadsDecimal` | Source/Utils.cpp:18-20 | The strict unsigned parser accepts a decimal exactly when nothing follows it. |
| `Utils.FindParameter` | Source/Utils.cpp:64-67 | The search from an index finds the first parameter at or after it with the name; it fails exactly when there is no such parameter. |
| `Utils.GetPluginParameterByName` | Source/Utils.cpp:60-74 | Gives the first parameter with that name; fails with the unknown-parameter error exactly when no parameter has it. |
| `AutomationTypes.Insert` | Source/Automation.cpp:50 | Storing a keyframe at a new time keeps the track ascending and adds exactly that keyframe. |
| `AutomationTypes.HasTimeAfterInsert` | Source/Automation.cpp:40 | After an insertion, the track holds a time exactly when it held it before or the time is the new one. |
| `Automation.PercentToSamples` | Source/Automation.cpp:90-92 | A percentage of the input length, rounded and cast, is below 2^64. |
| `Automation.PercentWithinInput` | Source/Automation.cpp:90-92 | A percentage between 0 and 100 never gives a time past the input length. |
| `Automation.ParseKeyframeTime` | Source/Automation.cpp:67-104 | parseKeyframeTime. Its contract says the only errors are an invalid floating-point number (suffixed forms) and an invalid sample index naming the trimmed text. What each accepted form means is stated by KeyframeTimeInSeconds, KeyframeTimeInPercent, KeyframeTimeInSamples, KeyframeTimeRejectsWord and KeyframeTimeRejectsBareSuffix. |
| `Automation.KeyframeTimeInSeconds` | Source/Automation.cpp:70-89 | "<number> s", padded with white space anywhere around the number and suffix, is the number's seconds as samples. |
| `Automation.KeyframeTimeInPercent` | Source/Automation.cpp:70-92 | "<number> %", padded the same way, is that share of the input length, rounded. |
| `Automation.KeyframeTimeInSamples` | Source/Automation.cpp:95-103 | Any padded text that starts with a decimal and does not end in 's' or '%' is that many samples. |
| `Automation.KeyframeTimeRejectsWord` | Source/Automation.cpp:97-101 | Text that does not start with a digit, '+' or white space, and has no suffix, is refused as an invalid sample index. |
| `Automation.KeyframeTimeRejectsBareSuffix` | Source/Automation.cpp:80-86 | A suffix with no number in front of it is refused as an invalid floating-point number. |
| `Automation.SampleIndexExample` | Source/Automation.h:64-71 | "1000" is sample 1000. |
| `Automation.SecondsExample` | Source/Automation.h:64-71 | "1s" is sample 44100 at 44100 Hz. |
| `Automation.PercentExample` | Source/Automation.h:64-71 | "50%" of a 1000-sample input is sample 500. |
| `Automation.ZeroTimesExample` | Source/Automation.cpp:67-104 | "0" and "0s" both mean sample 0. ZeroAndZeroSecondsRefused shows what that does to one track. |
| `Automation.KeyframeTimeOfDecimal` | Source/Automation.cpp:95-103 | The decimal form of n is sample n, at any rate and input length. |
| `Automation.SecondsOfDecimal` | Source/Automation.cpp:88-89 | "<n>s" is n seconds as samples. |
| `Automation.PercentOfDecimal` | Source/Automation.cpp:90-92 | "<n>%" is n percent of the input length. |
| `Automation.ValueFromJsonPrimitive` | Source/Automation.cpp:106-123 | A number is accepted exactly when it lies in [0,1] and is kept unchanged; text goes through the parameter's getValueForText; anything else is an invalid value type. |
| `Automation.TextRoundTrips` | Source/Automation.cpp:170-186 | The probe's criterion, with no contract of its own: each of the min(100, steps) probed values comes back from its own text within 10^-4. SupportsTextToValueConversion is proved to compute it. ExactConversionRoundTrips, NoStepsRoundTrips and ProbesAtMostHundred state its consequences. |
| `Automation.SupportsTextToValueConversion` | Source/Automation.cpp:168-186 | The probe answers true exactly when each of the min(100, steps) probed values comes back from its own text within 10^-4. |
| `Automation.ExactConversionRoundTrips` | Source/Automation.cpp:170-186 | A parameter whose text conversion is exact on [0,1] passes the probe. |
| `Automation.NoStepsRoundTrips` | Source/Automation.cpp:172-174 | A parameter without steps is probed zero times and passes. |
| `Automation.ProbesAtMostHundred` | Source/Automation.cpp:172 | Past 100 steps the step count does not matter: two parameters with the same conversions get the same answer. |
| `Automation.AddKeyframes` | Source/Automation.cpp:36-53 | Filling a track entry by entry keeps it ascending. |
| `Automation.BuildKeyframes` | Source/Automation.cpp:24-54 | The track built for a definition is ascending. |
| `Automation.DefinitionTrack` | Source/Automation.cpp:17-61 | The track of one document member is ascending. |
| `Automation.ParseAutomationDefinition` | Source/Automation.cpp:4-65 | The member-by-member loop computes the document's table: the same table or the same first error. |
| `Automation.AddKeyframesReads` | Source/Automation.cpp:36-53 | Reading the time and value of all entries first and then inserting gives the same result as the interleaved loop. |
| `Automation.ObjectReads` | Source/Automation.cpp:31-53 | A keyframe object's track is the insertion of its entries' readings into an empty track. |
| `Automation.AddReadingsSucceeds` | Source/Automation.cpp:36-53 | Insertion succeeds exactly when every entry's time and value resolve and no time repeats one already present. |
| `Automation.AddReadingsLength` | Source/Automation.cpp:36-53 | An accepted object gains one keyframe per entry. |
| `Automation.AddReadingsMembers` | Source/Automation.cpp:36-53 | An accepted object's track holds exactly the old keyframes and the resolved entries. |
| `Automation.AddReadingsText` | Source/Automation.cpp:52 | The text flag is set exactly when it was already set or some entry's value is text. |
| `Automation.AddReadingsContents` | Source/Automation.cpp:36-53 | From an empty track: one keyframe per entry, exactly the resolved ones, text exactly when some entry is text. |
| `Automation.ScalarDefinition` | Source/Automation.cpp:24-29 | A primitive definition is one keyframe at time 0 holding its value, or that value's error. |
| `Automation.ArrayDefinitionRefused` | Source/Automation.cpp:31-34 | A definition that is neither a primitive nor an object is refused. |
| `Automation.ObjectDefinitionAccepted` | Source/Automation.cpp:36-53 | A keyframe object is accepted exactly when every entry resolves and their times are distinct. |
| `Automation.ObjectDefinitionContents` | Source/Automation.cpp:36-53 | An accepted keyframe object gives one keyframe per entry, exactly the resolved ones; text is flagged exactly when used. |
| `Automation.EmptyObjectGivesEmptyTrack` | Source/Automation.cpp:31-54 | An empty keyframe object is accepted and gives an empty track, which applyParameters could not evaluate. |
| `Automation.NonEmptyDefinitionPlayable` | Source/Automation.cpp:24-54 | Any accepted definition other than the empty object has at least one keyframe. |
| `Automation.NumericTrackInUnitRange` | Source/Automation.cpp:108-115 | A definition without text values gives keyframe values within [0,1]. |
| `Automation.DefinitionTrackMeaning` | Source/Automation.cpp:17-61 | A member is refused for an unknown name. It is accepted exactly when its definition builds and, if it uses text, the parameter passes the probe; the result is then the built track. |
| `Automation.BuildAutomationSucceeds` | Source/Automation.cpp:17-62 | The member loop succeeds exactly when every member's track is accepted. |
| `Automation.BuildAutomationContents` | Source/Automation.cpp:17-62 | The table holds the old names plus every member's name; each member's name maps to its own track; other names keep their tracks. |
| `Automation.ParsedAutomation` | Source/Automation.cpp:4-65 | parseAutomationDefinition on a parsed document, with no contract of its own. ParseAutomationDefinition is proved to compute it. ParsedAutomationMeaning and ParsedAutomationUsable state what it gives. |
| `Automation.ParsedAutomationMeaning` | Source/Automation.cpp:4-65 | A non-object document is refused. An object is accepted exactly when every member's track is. The table's names are then exactly the members' names, each mapped to its member's track. |
| `Automation.ParsedAutomationUsable` | Source/Automation.cpp:4-65 | Every name in an accepted table is a plugin parameter and every track is sorted; all tracks can be evaluated unless the document held an empty object. |
| `Automation.EmptyObjectAccepted` | Source/Automation.cpp:36-53 | As written, the document {"Gain": {}} is accepted as the table Gain -> {}. That table is not playable, so it falls outside what applyParameters can evaluate. |
| `Automation.CheckedAutomation` | Source/Automation.cpp:4-65 | The corrected reading. It accepts exactly when parseAutomationDefinition does and no member is an empty keyframe object, and then gives the same table, which is playable. The source's own errors are kept. Otherwise the error names a member whose definition is {}. |
| `Automation.ScalarShorthandExample` | Source/Automation.cpp:24-29 | {"Gain": 0.5} is the table Gain -> {0: 0.5}. |
| `Automation.RepeatedTimeRefused` | Source/Automation.cpp:40-46 | Two entries whose times resolve to the same sample are refused with that sample and the second entry's text. |
| `Automation.DuplicateTimeRefused` | Source/Automation.cpp:40-46 | For any number of entries: suppose every entry before entry k is accepted at a fresh time, and entry k's time is already in the track or taken by one of them. Then filling stops with the duplicate-time error, naming that time and entry k's own text. |
| `Automation.ObjectDuplicateTimeRefused` | Source/Automation.cpp:36-46 | The same for a keyframe object: its definition is refused with the duplicate-time error that names entry k's key. |
| `Automation.ZeroEntriesRead` | Source/Automation.cpp:67-104 | In the object {"0": 0.5, "0s": 0.25}, the first entry is accepted at sample 0 and the second resolves to the same sample. |
| `Automation.ZeroAndZeroSecondsRefused` | Source/Automation.cpp:36-46 | The object {"0": 0.5, "0s": 0.25} is refused with the duplicate-time error for sample 0, naming "0s". |
| `Automation.OutOfRangeExample` | Source/Automation.cpp:110-113 | The value 1.5 is refused as out of range. |
| `Automation.TextUnsupportedExample` | Source/Automation.cpp:58-61 | A text value for a parameter failing the probe is refused with the text-value error. |
| `Automation.UpperBound` | Source/Automation.cpp:137-141 | std::upper_bound: all keyframes before the position are at or before the sample index, all from it on are after it. |
| `Automation.ValueAt` | Source/Automation.cpp:132-160 | The value applyParameters computes for a track, with no contract of its own. ApplyParameters is proved to set it. ValueBeforeFirst, ValueFromLast, ValueBetween, ValueAtKeyframe and ValueWithinTrack state what it is. |
| `Automation.ValueBeforeFirst` | Source/Automation.cpp:143-145 | Before the first keyframe the value is the first keyframe's. |
| `Automation.ValueFromLast` | Source/Automation.cpp:147-149 | From the last keyframe on, the value is the last keyframe's. |
| `Automation.ValueBetween` | Source/Automation.cpp:151-160 | Between two neighbouring keyframes the value is their linear interpolation by relative position, and lies between their values. |
| `Automation.ValueAtKeyframe` | Source/Automation.cpp:137-160 | At a keyframe's own time the value is exactly that keyframe's. |
| `Automation.ValueWithinTrack` | Source/Automation.cpp:137-160 | The value never leaves the range spanned by the track's keyframe values. |
| `Automation.FlatExtrapolationExample` | Source/Automation.cpp:143-149 | A track {100: 0.2, 500: 0.8} is 0.2 at sample 0 and 0.8 at sample 10000. |
| `Automation.MidpointExample` | Source/Automation.cpp:151-160 | A track {0: 0, 100: 1} is 0.5 at sample 50. |
| `Automation.Applied` | Source/Automation.cpp:128-165 | After applying the table, every parameter it names holds its track's value at the sample index; every other parameter keeps its value. |
| `Automation.AppliedAgain` | Source/Automation.cpp:125-166 | Applying the table at one sample index and then at another gives what applying it at the second one alone gives. |
| `Automation.ApplyParameters` | Source/Automation.cpp:125-166 | It fails exactly when the table names an unknown parameter, and then with the unknown-parameter error for one such name. Otherwise the plugin's values become the applied values. On failure, each value is either unchanged or already applied. |
| `ProcessArguments.ParsePluginParameterArgument` | Source/ProcessCommand.cpp:24-65 | parsePluginParameterArgument. An accepted argument has a colon-free name and text. A normalised one has a value in [0, 1] and no text, and a text one has value 0. The only errors are the four the source throws. TextArgument, NormalizedArgument, NormalizedArgumentRefused, ModifierCheckedFirst, WrongPieceCount and AcceptedArgumentShape state each form. |
| `ProcessArguments.TextArgument` | Source/ProcessCommand.cpp:60-64 | "name:text" is a text argument for that name. |
| `ProcessArguments.NormalizedArgument` | Source/ProcessCommand.cpp:39-58 | "name:number:n" with a number in [0,1] is a normalised argument with that value. |
| `ProcessArguments.NormalizedArgumentRefused` | Source/ProcessCommand.cpp:41-51 | A normalised value that is not a number, or lies outside [0,1], is refused with the matching error. |
| `ProcessArguments.ModifierCheckedFirst` | Source/ProcessCommand.cpp:28-32 | A third token other than "n" is refused as an invalid modifier. |
| `ProcessArguments.WrongPieceCount` | Source/ProcessCommand.cpp:34-36 | Fewer than two or more than three tokens is refused as not being a key-value pair. |
| `ProcessArguments.AcceptedArgumentShape` | Source/ProcessCommand.cpp:24-65 | An accepted argument is "name:value" or "name:number:n" rebuilt from its own parts; a normalised value lies in [0,1]. |
| `ProcessArguments.NormalizedArgumentExample` | Source/ProcessCommand.cpp:39-58 | "gain:0.5:n" sets gain to the normalised value 0.5. |
| `ProcessArguments.ValidateBitDepth` | Source/ProcessCommand.cpp:89-104 | The validator's message is empty, the unsupported-depth message or the not-an-integer message. |
| `ProcessArguments.BitDepthAccepted` | Source/ProcessCommand.cpp:94-97 | A decimal is accepted exactly when it is 8, 16, 24 or 32; any other in-range integer gets the unsupported-depth message. |
| `ProcessArguments.BitDepthRejectsWord` | Source/ProcessCommand.cpp:98-100 | Text that does not start like an integer gets the not-an-integer message. |
| `ProcessCommand.MaxOfIsMaximum` | Source/ProcessCommand.cpp:307-308 | The std::max fold bounds every element and, for a non-empty sequence, equals one of them. |
| `ProcessCommand.CreateAudioFileReaders` | Source/ProcessCommand.cpp:278-312 | The files are accepted exactly when all share the first file's sample rate; the length is then the longest file's. |
| `ProcessCommand.InputLengthOfFiles` | Source/ProcessCommand.cpp:307-308 | No input file is longer than the input length, and some file is exactly as long. |
| `ProcessCommand.TrackSamples` | Source/ProcessCommand.cpp:331-332 | Each event time of a track is converted with secondsToSamples, in the track's order. |
| `ProcessCommand.EventSamplesMembers` | Source/ProcessCommand.cpp:329-334 | The event positions are exactly the converted times of the events of all tracks. |
| `ProcessCommand.ReadMidiFileLength` | Source/ProcessCommand.cpp:314-339 | The MIDI length is the std::max fold of all the event positions. |
| `ProcessCommand.MidiLengthIsLastEvent` | Source/ProcessCommand.cpp:327-336 | Every event is at or before the MIDI length, and some event is at it. |
| `ProcessCommand.MidiWindowMembers` | Source/ProcessCommand.cpp:243-253 | A block receives an offset exactly when some event lies in the block at that offset from its start; every offset is below the block size. |
| `ProcessCommand.CollectMidiEvents` | Source/ProcessCommand.cpp:243-253 | The loop over tracks and events collects exactly the block's MIDI window, in the order the loop adds the events. |
| `ProcessCommand.ChooseOutputFormat` | Source/ProcessCommand.cpp:145-157 | The rate is the first file's, or the option's rate without files. The bit depth is the option's when given, else the first file's, else 16. |
| `ProcessCommand.TotalInputLength` | Source/ProcessCommand.cpp:160-165 | The input length is at least the audio length and the MIDI length, and is one of them. |
| `ProcessCommand.CreateBusLayout` | Source/ProcessCommand.cpp:341-376 | One input bus per file with its channels, or the plugin's default inputs without files; the input total wraps at 2^32; one output bus with the requested or default channels. |
| `ProcessCommand.ReaderChannelsDisjoint` | Source/ProcessCommand.cpp:226-236 | The files' buffer channel ranges are consecutive and disjoint; without wrap-around they stay within the buffer's input channel count. |
| `ProcessCommand.CliEntry` | Source/ProcessCommand.cpp:393-409 | An accepted argument resolves to a known parameter under its own parsed name. |
| `ProcessCommand.TextEntry` | Source/ProcessCommand.cpp:401-409 | A text argument for a known parameter gives the parameter's reading of the text when the probe passes, and the text-value error otherwise. |
| `ProcessCommand.NormalizedEntry` | Source/ProcessCommand.cpp:394-401 | A normalised argument for a known parameter sets its number without consulting the probe. |
| `ProcessCommand.UnknownEntry` | Source/ProcessCommand.cpp:399 | An argument naming no parameter is refused with the unknown-parameter error. |
| `ProcessCommand.ResolveCliParameter` | Source/ProcessCommand.cpp:394-409 | The executable body of the command-line loop, which runs the probe loop, resolves an argument as its specification CliEntry does. |
| `ProcessCommand.ParseParameters` | Source/ProcessCommand.cpp:378-423 | The method computes the file's table with the command-line parameters merged over it, and the override notices in printing order. |
| `ProcessCommand.ParsedParameters` | Source/ProcessCommand.cpp:378-423 | parseParameters on a parsed parameter file, with no contract of its own. ParseParameters is proved to compute it. It is the file's table (ParsedAutomation, described by ParsedAutomationMeaning) with MergeCli applied over it. |
| `ProcessCommand.MergeCli` | Source/ProcessCommand.cpp:393-420 | The command-line loop, with no contract of its own. MergeCliReads reduces it to resolved entries. MergeCliSucceeds, MergeKeys, MergeKeepsOthers, MergeLastWins and MergeNotices state its result. |
| `ProcessCommand.MergeCliReads` | Source/ProcessCommand.cpp:393-420 | Resolving every argument first and then merging gives the same result as the interleaved loop. |
| `ProcessCommand.MergeResultsSucceeds` | Source/ProcessCommand.cpp:393-420 | The merge succeeds exactly when every result resolved; the first failure decides the error. |
| `ProcessCommand.MergeCliSucceeds` | Source/ProcessCommand.cpp:393-420 | The command line is accepted exactly when every argument resolves, and the first one that does not decides the error. |
| `ProcessCommand.MergeKeys` | Source/ProcessCommand.cpp:419 | The merged table names the file's parameters and every command-line parameter. |
| `ProcessCommand.MergeKeepsOthers` | Source/ProcessCommand.cpp:419 | A parameter not given on the command line keeps the file's track. |
| `ProcessCommand.MergeLastWins` | Source/ProcessCommand.cpp:419 | The last command-line entry for a name decides its track: one keyframe at 0 with that entry's value. |
| `ProcessCommand.MergeNotices` | Source/ProcessCommand.cpp:411-417 | The override notice names a parameter exactly when some entry for it finds it already in the table, from the file or from an earlier entry. |
| `ProcessCommand.MergeResultsPlayable` | Source/ProcessCommand.cpp:419 | Each command-line track is a single keyframe at 0, so merging keeps a playable table playable. |
| `ProcessCommand.CheckedParametersPlayable` | Source/ProcessCommand.cpp:378-423 | With the corrected reading of the parameter file, the table parseParameters gives execute meets what ProcessBlocks requires: every track can be evaluated. |
| `ProcessCommand.BlockAt` | Source/ProcessCommand.cpp:237-274 | The block starting at a sample index, with no contract of its own. ProcessBlocks is proved to produce it for each block start. MidiWindowMembers and BlockOfSample state its MIDI window, and BlocksTotals states its latency split. |
| `ProcessCommand.Schedule` | Source/ProcessCommand.cpp:221-275 | The blocks execute processes, with no contract of its own. ProcessBlocks is proved to produce them. BlockCountBounds, BlocksTotals, OutputLength and MidiDelivery state what they cover. |
| `ProcessCommand.Blocks` | Source/ProcessCommand.cpp:221-275 | Block k of the loop starts at sample k times the block size, with that block's MIDI window and latency split. |
| `ProcessCommand.BlockCountBounds` | Source/ProcessCommand.cpp:221 | The loop runs no blocks exactly when there is nothing to cover; otherwise the last block starts inside the range and ends at or past its end. |
| `ProcessCommand.BlocksTotals` | Source/ProcessCommand.cpp:259-272 | Over any run of blocks, latency is dropped first, up to the samples processed, and every other sample is written. |
| `ProcessCommand.OutputLength` | Source/ProcessCommand.cpp:221-275 | Exactly the latency is dropped; the samples written cover the whole input and pass its end by less than one block. |
| `ProcessCommand.BlockOfSample` | Source/ProcessCommand.cpp:249-250 | The block starting at k times the block size holds sample t exactly when k is t divided by the block size. |
| `ProcessCommand.MidiDelivery` | Source/ProcessCommand.cpp:243-253 | Exactly one processed block can hold an event's sample, and an event inside the processed range reaches that block at its offset. |
| `ProcessCommand.ProcessBlock` | Source/ProcessCommand.cpp:237-274 | One pass of the loop fails exactly when the table names an unknown parameter. Otherwise it applies the table at the block's start and returns the block's MIDI window, latency split and written count. |
| `ProcessCommand.ProcessBlocks` | Source/ProcessCommand.cpp:221-275 | The loop processes exactly the scheduled blocks. It fails exactly when it runs at least one block and the table names an unknown parameter. The plugin ends with the table applied at the last block's start. |
| `ProcessCommand.LastEventMissed` | Source/ProcessCommand.cpp:328-336 | If the last event falls on a block boundary with no longer audio and no latency, the blocks end exactly at it and none holds it. |
| `ProcessCommand.LastEventMissedExample` | Source/ProcessCommand.cpp:221 | One event at 1 s, at 4 Hz, with blocks of 4 samples: the single block [0, 4) is processed, with no MIDI. |
| `ProcessCommand.MidiEndLength` | Source/ProcessCommand.cpp:328-336 | The corrected MIDI length is past every event and, with events present, is one past some event. |
| `ProcessCommand.EveryEventDelivered` | Source/ProcessCommand.cpp:221-253 | With the corrected MIDI length, every event reaches the plugin in its own block at its offset, for any audio length, latency and block size. |

## Left out

- Reading text: the JSON text of the parameter file is taken as already parsed by nlohmann::json::parse, so syntax errors are not modelled.
- Reading files: reading the parameter and preset files, and opening audio readers, is not modelled, so their read errors are not either.
- The output file: the existence and overwrite check, and creating the output stream and writer, are not modelled.
- The audio itself: the audio samples, the input read per block and its read error, `processBlock`, and what the writer writes are not modelled.
- Plugin setup: plugin creation, preset loading, `setBusesLayout` and its refusal, `prepareToPlay` and `getLatencySamples` are not modelled. The latency is a parameter of the model and cannot be negative.
- Channel sets: `canonicalChannelSet` is represented only by its channel count.
- The override notice is returned as the list of parameter names instead of being written to std::cout.
- The command-line parser (CLI11) and the `listParameters` command are not part of this model.
- MIDI file reading: a MIDI file is given by each track's event times in seconds after conversion. Message contents and the conversion from ticks are not modelled.
- Numbers: float and double arithmetic is modelled with exact reals, so rounding is not modelled, and neither are NaN or infinities apart from the probe's 0/0 case.
- Automation.ValueBetween: the value is stated with exact arithmetic, not the rounding of the float lerp.
- CStdlib.ParseRealPrefix: std::stod/stof are modelled on "[ws][sign]digits[.digits]" only. Exponents, hexadecimal and "inf"/"nan" are not accepted, and out_of_range is not modelled.
- CStdlib.ParseUnsignedPrefix: std::stoul on a leading '-' is modelled as no conversion. The real function negates the value modulo 2^64, and its out_of_range is not modelled.
- CStdlib.CastToSize: a double outside the range of size_t is undefined behaviour in C++. The model reduces it modulo 2^64.
- JuceText.IsWhitespace: white space is the six ASCII white-space characters. juce's trim uses iswspace, which in some locales also counts non-ASCII spaces.
- Utils.GetPluginParameterByName: compares full parameter names. The source compares getName(1024) (Source/Utils.cpp:66), which cuts a name off after 1024 characters.
- JuceText.SplitOnColons: the quote characters given to addTokens are not modelled. A ':' inside quotes still splits.
- Plugin.Instance.constructor: getText's 1024-character limit and the plugin's own behaviour are not modelled. A parameter's text conversions are arbitrary functions.
- Automation.ApplyParameters: the order of the table's names is not modelled. So on a failure the model says only that each value is unchanged or already applied, not which ones were set before the unknown name.
- Automation.ApplyParameters: requires every track to have a keyframe (IsPlayable). On an empty track the source reads the keyframe at end() (Source/Automation.cpp:143-145), which is undefined behaviour, and a `{}` definition produces such a track; see "## Findings".
- ProcessCommand.ProcessBlock: requires every track to have a keyframe, for the same reason, since it applies the table.
- ProcessCommand.ProcessBlocks: requires every track to have a keyframe, for the same reason.
- ProcessCommand.CollectMidiEvents: gives the offsets in the order the loop adds them, track by track. juce::MidiBuffer::addEvent keeps its events sorted by sample position, and that ordering is not modelled.
- ProcessCommand.ProcessBlocks: requires a block size above 0. With a block size of 0 the source loop never ends.
- ProcessCommand.ProcessBlocks: models the sample index and the input length as unbounded naturals, without size_t wrap-around.
- ProcessCommand.ProcessBlocks: states the blocks' bookkeeping (start, MIDI offsets, latency split, samples written), not the audio that flows through them.
- ProcessCommand.MergeNotices: the notice text says the name came from the parameter file. The source also prints it for a name repeated on the command line, and that is what is modelled.

## Findings

| source | as written | input that shows it | evidently intended | confidence | as-written member | corrected member |
|---|---|---|---|---|---|---|
| Source/ProcessCommand.cpp:328-336 | The MIDI length is the sample of the last event. The loop at line 221 runs while the sample index is below the input length plus latency, so it stops before a last event that falls on a block boundary. That event is never handed to the plugin. | One MIDI event at 1 s, sample rate 4 Hz, block size 4, no audio file, latency 0: the length is 4, one block [0, 4) is processed, and the event at sample 4 is dropped. | The comment at lines 328-329 says processing should continue until the last event is reached, so the length should be one past the last event's sample. | medium; not executed | ProcessCommand.LastEventMissed | ProcessCommand.EveryEventDelivered |
| Source/Automation.cpp:143-145 | A definition that is an empty object is accepted: the keyframe loop at lines 36-53 runs zero times and the parameter gets a track with no keyframe. applyParameters then finds that upper_bound returns begin(), which is also end(), and reads nextKeyframe->second there. That dereferences end(), which is undefined behaviour. | A parameter file {"Gain": {}} for a plugin with a parameter named Gain, and an input of at least one sample, so that one block is processed. | Every table execute applies should have a keyframe in each track. A member with no keyframe should be refused when the file is read. | medium; not executed | Automation.EmptyObjectAccepted | Automation.CheckedAutomation |

