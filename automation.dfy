/**
 * Source/Automation.cpp: reading a parameter automation document into tracks of
 * keyframes, and evaluating those tracks at a sample index.
 */
module Automation {
  import opened Outcomes
  import opened CStdlib
  import JuceText
  import opened Json
  import opened Plugin
  import opened Utils
  import opened AutomationTypes

  // ---------------------------------------------------------------------------
  // Keyframe times
  // ---------------------------------------------------------------------------

  /**
   * parseKeyframeTime: a trimmed time ending in 's' is seconds and one ending in
   * '%' a share of the input length, both read with std::stod after the suffix and
   * the white space before it are removed; any other time is a sample index read
   * with std::stoul. Both conversions read a prefix, so "12abc" is sample 12.
   */
  function ParseKeyframeTime(timeStr: string, sampleRate: real, inputLength: nat): (r: Result<nat>)
    ensures r.Err? ==> r.error.InvalidFloatingPoint? || r.error == InvalidSampleIndex(JuceText.Trim(timeStr))
  {
    var t := JuceText.Trim(timeStr);
    if |t| > 0 && (t[|t| - 1] == 's' || t[|t| - 1] == '%') then
      ParseSuffixedTime(JuceText.Trim(t[..|t| - 1]), t[|t| - 1] == 's', sampleRate, inputLength)
    else
      ParseSampleIndex(t)
  }

  /** The suffixed forms: the number before the suffix, as seconds or as a percentage. */
  function ParseSuffixedTime(number: string, isSeconds: bool, sampleRate: real, inputLength: nat): (r: Result<nat>)
    ensures r.Err? <==> ParseRealPrefix(number).None?
    ensures r.Err? ==> r.error == InvalidFloatingPoint(number)
  {
    match ParseRealPrefix(number)
    case None => Err(InvalidFloatingPoint(number))
    case Some(parsed) =>
      if isSeconds then Ok(SecondsToSamples(parsed.value, sampleRate))
      else Ok(PercentToSamples(parsed.value, inputLength))
  }

  /** A percentage of the input length, rounded half away from zero and cast to size_t. */
  function PercentToSamples(percent: real, inputLength: nat): (r: nat)
    ensures r < SizeModulus
  {
    CastToSize(RoundHalfAwayFromZero(percent / 100.0 * inputLength as real) as real)
  }

  /** A percentage from [0,100] of an input that size_t can count lands inside the input. */
  lemma PercentWithinInput(percent: real, inputLength: nat)
    requires 0.0 <= percent <= 100.0 && inputLength < SizeModulus
    ensures PercentToSamples(percent, inputLength) <= inputLength
  {
    var x := percent / 100.0 * inputLength as real;
    assert 0.0 <= percent / 100.0 <= 1.0;
    assert 0.0 <= x <= inputLength as real by {
      MulBetween(percent / 100.0, inputLength as real);
    }
    var r := RoundHalfAwayFromZero(x);
    assert 0 <= r <= inputLength;
  }

  lemma MulBetween(a: real, b: real)
    requires 0.0 <= a <= 1.0 && 0.0 <= b
    ensures 0.0 <= a * b <= b
  {
  }

  /** The form without a suffix: a sample index. */
  function ParseSampleIndex(t: string): (r: Result<nat>)
    ensures r.Err? <==> ParseUnsignedPrefix(t).None?
    ensures r.Err? ==> r.error == InvalidSampleIndex(t)
  {
    match ParseUnsignedPrefix(t)
    case None => Err(InvalidSampleIndex(t))
    case Some(parsed) => Ok(parsed.value)
  }

  /** The text of a time, padded with white space: what Trim gives back. */
  lemma TrimmedTime(pre: string, core: string, post: string)
    requires JuceText.AllWhitespace(pre) && JuceText.AllWhitespace(post) && JuceText.IsTrimmed(core)
    ensures JuceText.Trim(pre + core + post) == core
  {
    JuceText.TrimOfPadded(pre, core, post);
  }

  /** The number and the white space before a suffix, with the suffix removed and trimmed. */
  lemma {:induction false} SuffixedNumber(num: string, mid: string, suffix: char)
    requires num != [] && JuceText.IsTrimmed(num) && JuceText.AllWhitespace(mid)
    ensures var t := num + mid + [suffix]; JuceText.Trim(t[..|t| - 1]) == num
  {
    var t := num + mid + [suffix];
    assert t[..|t| - 1] == [] + num + mid;
    JuceText.TrimOfPadded([], num, mid);
  }

  /** A padded time ending in a suffix after white space: the suffixed form reads the number alone. */
  lemma {:induction false} SuffixedTime(pre: string, num: string, mid: string, suffix: char, post: string,
                                        sampleRate: real, inputLength: nat)
    requires JuceText.AllWhitespace(pre) && JuceText.AllWhitespace(mid) && JuceText.AllWhitespace(post)
    requires num != [] && JuceText.IsTrimmed(num)
    requires suffix == 's' || suffix == '%'
    ensures ParseKeyframeTime(pre + num + mid + [suffix] + post, sampleRate, inputLength)
         == ParseSuffixedTime(num, suffix == 's', sampleRate, inputLength)
  {
    var s := pre + num + mid + [suffix] + post;
    var core := num + mid + [suffix];
    assert s == pre + core + post;
    assert JuceText.IsTrimmed(core) by {
      assert core[0] == num[0];
      assert core[|core| - 1] == suffix;
    }
    TrimmedTime(pre, core, post);
    SuffixedNumber(num, mid, suffix);
    SuffixedBranch(s, core, num, sampleRate, inputLength);
  }

  /** Once the trimmed time and the trimmed number are known, the suffixed branch is taken. */
  lemma SuffixedBranch(s: string, t: string, num: string, sampleRate: real, inputLength: nat)
    requires JuceText.Trim(s) == t && |t| > 0 && (t[|t| - 1] == 's' || t[|t| - 1] == '%')
    requires JuceText.Trim(t[..|t| - 1]) == num
    ensures ParseKeyframeTime(s, sampleRate, inputLength) == ParseSuffixedTime(num, t[|t| - 1] == 's', sampleRate, inputLength)
  {
  }

  /** "N s": a number, optional white space and 's' is that many seconds, truncated to samples. */
  lemma KeyframeTimeInSeconds(pre: string, num: string, mid: string, post: string,
                              sampleRate: real, inputLength: nat)
    requires JuceText.AllWhitespace(pre) && JuceText.AllWhitespace(mid) && JuceText.AllWhitespace(post)
    requires num != [] && JuceText.IsTrimmed(num) && ParseRealPrefix(num).Some?
    ensures ParseKeyframeTime(pre + num + mid + "s" + post, sampleRate, inputLength)
         == Ok(SecondsToSamples(ParseRealPrefix(num).value.value, sampleRate))
  {
    SuffixedTime(pre, num, mid, 's', post, sampleRate, inputLength);
  }

  /** "P %": a number, optional white space and '%' is that share of the input length, rounded. */
  lemma KeyframeTimeInPercent(pre: string, num: string, mid: string, post: string,
                              sampleRate: real, inputLength: nat)
    requires JuceText.AllWhitespace(pre) && JuceText.AllWhitespace(mid) && JuceText.AllWhitespace(post)
    requires num != [] && JuceText.IsTrimmed(num) && ParseRealPrefix(num).Some?
    ensures ParseKeyframeTime(pre + num + mid + "%" + post, sampleRate, inputLength)
         == Ok(PercentToSamples(ParseRealPrefix(num).value.value, inputLength))
  {
    SuffixedTime(pre, num, mid, '%', post, sampleRate, inputLength);
  }

  /**
   * A decimal integer is that many samples, whatever non-digit text follows it, as
   * long as the text does not end in a suffix.
   */
  lemma {:induction false} KeyframeTimeInSamples(pre: string, n: nat, rest: string, post: string,
                                                 sampleRate: real, inputLength: nat)
    requires JuceText.AllWhitespace(pre) && JuceText.AllWhitespace(post)
    requires rest != [] ==> !IsDigit(rest[0]) && !JuceText.IsWhitespace(rest[|rest| - 1])
    requires rest != [] ==> rest[|rest| - 1] != 's' && rest[|rest| - 1] != '%'
    ensures ParseKeyframeTime(pre + NatToDecimal(n) + rest + post, sampleRate, inputLength) == Ok(n)
  {
    var digits := NatToDecimal(n);
    var s := pre + digits + rest + post;
    var core := digits + rest;
    assert s == pre + core + post;
    assert core[0] == digits[0];
    assert core[|core| - 1] == if rest == [] then digits[|digits| - 1] else rest[|rest| - 1];
    TrimmedTime(pre, core, post);
    UnsignedPrefixOfDecimal(n, rest);
    SampleIndexBranch(s, core, sampleRate, inputLength);
  }

  /** Once the trimmed time is known not to end in a suffix, it is read as a sample index. */
  lemma SampleIndexBranch(s: string, t: string, sampleRate: real, inputLength: nat)
    requires JuceText.Trim(s) == t && (t == [] || (t[|t| - 1] != 's' && t[|t| - 1] != '%'))
    ensures ParseKeyframeTime(s, sampleRate, inputLength) == ParseSampleIndex(t)
  {
  }

  /** A time that starts with neither a digit nor a sign is no sample index. */
  lemma {:induction false} KeyframeTimeRejectsWord(pre: string, word: string, post: string,
                                                   sampleRate: real, inputLength: nat)
    requires JuceText.AllWhitespace(pre) && JuceText.AllWhitespace(post)
    requires word != [] && JuceText.IsTrimmed(word)
    requires !IsDigit(word[0]) && word[0] != '+'
    requires word[|word| - 1] != 's' && word[|word| - 1] != '%'
    ensures ParseKeyframeTime(pre + word + post, sampleRate, inputLength) == Err(InvalidSampleIndex(word))
  {
    TrimmedTime(pre, word, post);
    SampleIndexBranch(pre + word + post, word, sampleRate, inputLength);
    WordIsNoSampleIndex(word);
  }

  lemma WordIsNoSampleIndex(word: string)
    requires word != [] && !CStdlib.IsSpace(word[0]) && !IsDigit(word[0]) && word[0] != '+'
    ensures ParseSampleIndex(word) == Err(InvalidSampleIndex(word))
  {
    assert SkipSpaces(word, 0) == 0;
    assert DigitsEnd(word, 0) == 0;
  }

  /** A suffix with no number before it is an invalid floating-point number. */
  lemma {:induction false} KeyframeTimeRejectsBareSuffix(pre: string, mid: string, suffix: char, post: string,
                                                         sampleRate: real, inputLength: nat)
    requires JuceText.AllWhitespace(pre) && JuceText.AllWhitespace(mid) && JuceText.AllWhitespace(post)
    requires suffix == 's' || suffix == '%'
    ensures ParseKeyframeTime(pre + mid + [suffix] + post, sampleRate, inputLength) == Err(InvalidFloatingPoint(""))
  {
    var core := [suffix];
    assert pre + mid + [suffix] + post == (pre + mid) + core + post;
    assert JuceText.AllWhitespace(pre + mid) by {
      forall k | 0 <= k < |pre + mid| ensures JuceText.IsWhitespace((pre + mid)[k]) {
        if k >= |pre| {
          assert (pre + mid)[k] == mid[k - |pre|];
        }
      }
    }
    TrimmedTime(pre + mid, core, post);
    assert core[..0] == [];
    assert JuceText.Trim([]) == [];
  }

  /** "1000" is sample 1000. */
  lemma SampleIndexExample()
    ensures ParseKeyframeTime("1000", 44100.0, 0) == Ok(1000)
  {
    ThousandDecimal();
    KeyframeTimeOfDecimal(1000, 44100.0, 0);
  }

  lemma ThousandDecimal()
    ensures NatToDecimal(1000) == "1000"
  {
  }

  /** The bare decimal text of n is sample n. */
  lemma KeyframeTimeOfDecimal(n: nat, sampleRate: real, inputLength: nat)
    ensures ParseKeyframeTime(NatToDecimal(n), sampleRate, inputLength) == Ok(n)
  {
    var s := NatToDecimal(n);
    assert [] + s + [] + [] == s;
    KeyframeTimeInSamples([], n, [], [], sampleRate, inputLength);
  }

  /** The decimal text of n followed by 's' is n seconds. */
  lemma SecondsOfDecimal(n: nat, sampleRate: real, inputLength: nat)
    ensures ParseKeyframeTime(NatToDecimal(n) + "s", sampleRate, inputLength) == Ok(SecondsToSamples(n as real, sampleRate))
  {
    DecimalAsSuffixedNumber(n, 's', sampleRate, inputLength);
    SuffixedDecimal(n, true, sampleRate, inputLength);
  }

  /** The decimal text of n followed by '%' is n percent of the input length. */
  lemma PercentOfDecimal(n: nat, sampleRate: real, inputLength: nat)
    ensures ParseKeyframeTime(NatToDecimal(n) + "%", sampleRate, inputLength)
         == Ok(PercentToSamples(n as real, inputLength))
  {
    DecimalAsSuffixedNumber(n, '%', sampleRate, inputLength);
    SuffixedDecimal(n, false, sampleRate, inputLength);
  }

  /** The decimal text of n, read as the number before a suffix, is n. */
  lemma SuffixedDecimal(n: nat, isSeconds: bool, sampleRate: real, inputLength: nat)
    ensures ParseSuffixedTime(NatToDecimal(n), isSeconds, sampleRate, inputLength)
         == if isSeconds then Ok(SecondsToSamples(n as real, sampleRate)) else Ok(PercentToSamples(n as real, inputLength))
  {
    var d := NatToDecimal(n);
    assert ParseRealPrefix(d) == Some(Parsed(n as real, |d|)) by {
      RealPrefixOfInteger(n, []);
      assert d + [] == d;
    }
  }

  lemma DecimalAsSuffixedNumber(n: nat, suffix: char, sampleRate: real, inputLength: nat)
    requires suffix == 's' || suffix == '%'
    ensures ParseKeyframeTime(NatToDecimal(n) + [suffix], sampleRate, inputLength)
         == ParseSuffixedTime(NatToDecimal(n), suffix == 's', sampleRate, inputLength)
  {
    var d := NatToDecimal(n);
    DecimalIsTrimmed(n);
    assert [] + d + [] + [suffix] + [] == d + [suffix];
    SuffixedTime([], d, [], suffix, [], sampleRate, inputLength);
  }

  lemma DecimalIsTrimmed(n: nat)
    ensures JuceText.IsTrimmed(NatToDecimal(n))
  {
    var d := NatToDecimal(n);
    assert IsDigit(d[0]) && IsDigit(d[|d| - 1]);
  }

  /** "1s" at 44100 Hz is sample 44100. */
  lemma SecondsExample()
    ensures ParseKeyframeTime("1s", 44100.0, 0) == Ok(44100)
  {
    assert NatToDecimal(1) == "1";
    assert "1" + "s" == "1s";
    SecondsOfDecimal(1, 44100.0, 0);
    assert SecondsToSamples(1.0, 44100.0) == 44100;
  }

  /** "50%" of 1000 samples is sample 500. */
  lemma PercentExample()
    ensures ParseKeyframeTime("50%", 44100.0, 1000) == Ok(500)
  {
    assert NatToDecimal(50) == "50";
    assert "50" + "%" == "50%";
    PercentOfDecimal(50, 44100.0, 1000);
    assert 50 as real / 100.0 * 1000 as real == 500.0;
    assert RoundHalfAwayFromZero(500.0) == 500;
    assert PercentToSamples(50.0, 1000) == 500;
  }

  /** "0" and "0s" resolve to the same sample. */
  lemma ZeroTimesExample(sampleRate: real, inputLength: nat)
    ensures ParseKeyframeTime("0", sampleRate, inputLength) == Ok(0)
    ensures ParseKeyframeTime("0s", sampleRate, inputLength) == Ok(0)
  {
    assert NatToDecimal(0) == "0";
    assert "0" + "s" == "0s";
    KeyframeTimeOfDecimal(0, sampleRate, inputLength);
    SecondsOfDecimal(0, sampleRate, inputLength);
    assert SecondsToSamples(0.0, sampleRate) == 0;
  }

  // ---------------------------------------------------------------------------
  // Values
  // ---------------------------------------------------------------------------

  /**
   * getParameterValueFromJSONPrimitive: a number must already be normalised, text
   * goes through the parameter's own text conversion, anything else is refused.
   */
  function ValueFromJsonPrimitive(param: Parameter, primitive: Json): (r: Result<real>)
    ensures primitive.Number? ==> (r.Ok? <==> 0.0 <= primitive.number <= 1.0)
    ensures primitive.Number? && r.Ok? ==> r.value == primitive.number
    ensures primitive.Number? && r.Err? ==> r.error == ValueOutOfRange(primitive.number)
    ensures primitive.Text? ==> r == Ok(param.getValueForText(primitive.text))
    ensures !primitive.Number? && !primitive.Text? ==> r == Err(InvalidValueType)
  {
    match primitive
    case Number(v) => if v < 0.0 || v > 1.0 then Err(ValueOutOfRange(v)) else Ok(v)
    case Text(s) => Ok(param.getValueForText(s))
    case _ => Err(InvalidValueType)
  }

  // ---------------------------------------------------------------------------
  // Text-to-value support probe
  // ---------------------------------------------------------------------------

  const Epsilon: real := 0.0001

  /** std::min(100, getNumSteps()) */
  function ProbeCount(param: Parameter): int {
    if param.numSteps < 100 then param.numSteps else 100
  }

  /**
   * Probe i of n: the value i/(n-1) must come back from its own text within
   * Epsilon. With n == 1 the source divides 0 by 0, and the comparison with the
   * resulting NaN is false, so that probe passes.
   */
  predicate ProbePasses(param: Parameter, i: int, n: int) {
    n == 1 ||
    var normalizedValue := i as real / (n - 1) as real;
    AbsReal(normalizedValue - param.getValueForText(param.getText(normalizedValue))) < Epsilon
  }

  /** Every probe passes. */
  predicate TextRoundTrips(param: Parameter) {
    forall i | 0 <= i < ProbeCount(param) :: ProbePasses(param, i, ProbeCount(param))
  }

  /** parameterSupportsTextToValueConversion: probes in order, failing at the first miss. */
  method SupportsTextToValueConversion(param: Parameter) returns (supported: bool)
    ensures supported == TextRoundTrips(param)
  {
    var numValuesToTry := ProbeCount(param);
    var i := 0;
    while i < numValuesToTry
      invariant 0 <= i && (0 <= numValuesToTry ==> i <= numValuesToTry)
      invariant forall k | 0 <= k < i :: ProbePasses(param, k, numValuesToTry)
    {
      if numValuesToTry != 1 {
        var normalizedValue := i as real / (numValuesToTry - 1) as real;
        var text := param.getText(normalizedValue);
        var normalizedValueFromText := param.getValueForText(text);
        if AbsReal(normalizedValue - normalizedValueFromText) >= Epsilon {
          assert !ProbePasses(param, i, numValuesToTry);
          return false;
        }
      }
      i := i + 1;
    }
    return true;
  }

  /** The probed values stay within the normalised range. */
  lemma ProbeValueInRange(i: int, n: int)
    requires 0 <= i < n && n != 1
    ensures 0.0 <= i as real / (n - 1) as real <= 1.0
  {
  }

  /** A parameter whose text conversion is exact on [0,1] passes the probe. */
  lemma {:induction false} ExactConversionRoundTrips(param: Parameter)
    requires forall x: real | 0.0 <= x <= 1.0 :: param.getValueForText(param.getText(x)) == x
    ensures TextRoundTrips(param)
  {
    var n := ProbeCount(param);
    forall i | 0 <= i < n ensures ProbePasses(param, i, n) {
      if n != 1 {
        ProbeValueInRange(i, n);
      }
    }
  }

  /** Without steps to probe there is nothing to fail: at most zero probes run. */
  lemma NoStepsRoundTrips(param: Parameter)
    requires param.numSteps <= 0
    ensures TextRoundTrips(param)
  {
  }

  /** Probing stops at 100 values: values beyond the hundredth step are never looked at. */
  lemma ProbesAtMostHundred(param: Parameter, other: Parameter)
    requires param.getText == other.getText && param.getValueForText == other.getValueForText
    requires param.numSteps >= 100 && other.numSteps >= 100
    ensures TextRoundTrips(param) == TextRoundTrips(other)
  {
    assert ProbeCount(param) == 100 && ProbeCount(other) == 100;
    forall i | 0 <= i < 100 ensures ProbePasses(param, i, 100) == ProbePasses(other, i, 100) {
      var x := i as real / (100 - 1) as real;
      assert param.getText(x) == other.getText(x);
      assert param.getValueForText(param.getText(x)) == other.getValueForText(other.getText(x));
    }
  }

  // ---------------------------------------------------------------------------
  // The automation document
  // ---------------------------------------------------------------------------

  /**
   * The keyframe object of one parameter, entry by entry in key order: each entry's
   * time is resolved, checked against the times already present, and only then is
   * its value normalised. The flag records whether any value was text.
   */
  function AddKeyframes(param: Parameter, entries: seq<(string, Json)>, sampleRate: real, inputLength: nat,
                        keyframes: Keyframes, usedText: bool): (r: Result<(Keyframes, bool)>)
    requires IsAscending(keyframes)
    ensures r.Ok? ==> IsAscending(r.value.0)
    decreases |entries|
  {
    if entries == [] then Ok((keyframes, usedText))
    else
      var (timeStr, val) := entries[0];
      var time :- ParseKeyframeTime(timeStr, sampleRate, inputLength);
      if HasTime(keyframes, time) then Err(DuplicateKeyframeTime(time, timeStr))
      else
        var value :- ValueFromJsonPrimitive(param, val);
        AddKeyframes(param, entries[1..], sampleRate, inputLength,
                     Insert(keyframes, time, value), usedText || val.Text?)
  }

  /**
   * The track of one definition: a primitive is a single keyframe at time 0, any
   * other value must be an object of keyframes.
   */
  function BuildKeyframes(param: Parameter, definition: Json, sampleRate: real, inputLength: nat)
    : (r: Result<(Keyframes, bool)>)
    ensures r.Ok? ==> IsAscending(r.value.0)
  {
    if IsPrimitive(definition) then
      var value :- ValueFromJsonPrimitive(param, definition);
      Ok(([Keyframe(0, value)], definition.Text?))
    else
      var entries :- AsObject(definition);
      AddKeyframes(param, entries, sampleRate, inputLength, [], false)
  }

  /**
   * One member of the document: the parameter is looked up by name, its track is
   * built, and text values are refused for a parameter failing the probe.
   */
  function DefinitionTrack(parameters: seq<Parameter>, name: string, definition: Json,
                           sampleRate: real, inputLength: nat): (r: Result<Keyframes>)
    ensures r.Ok? ==> IsAscending(r.value)
  {
    var index :- GetPluginParameterByName(parameters, name);
    var built :- BuildKeyframes(parameters[index], definition, sampleRate, inputLength);
    if built.1 && !TextRoundTrips(parameters[index]) then Err(TextValueUnsupported(name))
    else Ok(built.0)
  }

  /** The members of the document in key order, each stored under its name. */
  function BuildAutomation(parameters: seq<Parameter>, definitions: seq<(string, Json)>,
                           sampleRate: real, inputLength: nat, automation: ParameterAutomation)
    : Result<ParameterAutomation>
    decreases |definitions|
  {
    if definitions == [] then Ok(automation)
    else
      var (name, definition) := definitions[0];
      var keyframes :- DefinitionTrack(parameters, name, definition, sampleRate, inputLength);
      BuildAutomation(parameters, definitions[1..], sampleRate, inputLength, automation[name := keyframes])
  }

  /** parseAutomationDefinition on an already-parsed document. */
  function ParsedAutomation(parameters: seq<Parameter>, document: Json, sampleRate: real, inputLength: nat)
    : Result<ParameterAutomation>
  {
    var definitions :- AsObject(document);
    BuildAutomation(parameters, definitions, sampleRate, inputLength, map[])
  }

  /**
   * parseAutomationDefinition: the document's members in key order, each track
   * filled keyframe by keyframe, stopping at the first failure.
   */
  method ParseAutomationDefinition(parameters: seq<Parameter>, document: Json, sampleRate: real, inputLength: nat)
    returns (r: Result<ParameterAutomation>)
    ensures r == ParsedAutomation(parameters, document, sampleRate, inputLength)
  {
    var def := AsObject(document);
    if def.Err? {
      return Err(def.error);
    }
    var definitions := def.value;
    var automation: ParameterAutomation := map[];
    var i := 0;
    while i < |definitions|
      invariant 0 <= i <= |definitions|
      invariant ParsedAutomation(parameters, document, sampleRate, inputLength)
             == BuildAutomation(parameters, definitions[i..], sampleRate, inputLength, automation)
    {
      var (paramName, automationDefinition) := definitions[i];
      assert definitions[i..][1..] == definitions[i + 1..];
      var found := GetPluginParameterByName(parameters, paramName);
      if found.Err? {
        return Err(found.error);
      }
      var param := parameters[found.value];
      var keyframes: Keyframes := [];
      var usedTextFormat := false;
      if IsPrimitive(automationDefinition) {
        var value := ValueFromJsonPrimitive(param, automationDefinition);
        if value.Err? {
          return Err(value.error);
        }
        keyframes := [Keyframe(0, value.value)];
        usedTextFormat := automationDefinition.Text?;
      } else {
        var automationObject := AsObject(automationDefinition);
        if automationObject.Err? {
          return Err(automationObject.error);
        }
        var entries := automationObject.value;
        var j := 0;
        while j < |entries|
          invariant 0 <= j <= |entries|
          invariant IsAscending(keyframes)
          invariant BuildKeyframes(param, automationDefinition, sampleRate, inputLength)
                 == AddKeyframes(param, entries[j..], sampleRate, inputLength, keyframes, usedTextFormat)
        {
          var (timeStr, val) := entries[j];
          assert entries[j..][1..] == entries[j + 1..];
          var timeSamples := ParseKeyframeTime(timeStr, sampleRate, inputLength);
          if timeSamples.Err? {
            return Err(timeSamples.error);
          }
          if HasTime(keyframes, timeSamples.value) {
            return Err(DuplicateKeyframeTime(timeSamples.value, timeStr));
          }
          var value := ValueFromJsonPrimitive(param, val);
          if value.Err? {
            return Err(value.error);
          }
          keyframes := Insert(keyframes, timeSamples.value, value.value);
          usedTextFormat := usedTextFormat || val.Text?;
          j := j + 1;
        }
        assert entries[j..] == [];
      }
      assert BuildKeyframes(param, automationDefinition, sampleRate, inputLength) == Ok((keyframes, usedTextFormat));
      automation := automation[paramName := keyframes];
      if usedTextFormat {
        var supported := SupportsTextToValueConversion(param);
        if !supported {
          return Err(TextValueUnsupported(paramName));
        }
      }
      assert DefinitionTrack(parameters, paramName, automationDefinition, sampleRate, inputLength) == Ok(keyframes);
      i := i + 1;
    }
    return Ok(automation);
  }

  // ---------------------------------------------------------------------------
  // What a successful parse means
  // ---------------------------------------------------------------------------

  /**
   * One keyframe entry as AddKeyframes reads it: the time its key resolves to, the
   * key itself (for the duplicate-time message), its normalised value and whether
   * that value was text.
   */
  datatype EntryReading = EntryReading(time: Result<nat>, timeStr: string, value: Result<real>, isText: bool)

  function ReadEntry(param: Parameter, entry: (string, Json), sampleRate: real, inputLength: nat): EntryReading {
    EntryReading(ParseKeyframeTime(entry.0, sampleRate, inputLength), entry.0,
                 ValueFromJsonPrimitive(param, entry.1), entry.1.Text?)
  }

  function ReadEntries(param: Parameter, entries: seq<(string, Json)>, sampleRate: real, inputLength: nat)
    : (readings: seq<EntryReading>)
    ensures |readings| == |entries|
    ensures forall k | 0 <= k < |entries| :: readings[k] == ReadEntry(param, entries[k], sampleRate, inputLength)
  {
    seq(|entries|, k requires 0 <= k < |entries| => ReadEntry(param, entries[k], sampleRate, inputLength))
  }

  /** AddKeyframes on entries that are already read: the same checks in the same order. */
  function AddReadings(readings: seq<EntryReading>, keyframes: Keyframes, usedText: bool)
    : (r: Result<(Keyframes, bool)>)
    requires IsAscending(keyframes)
    ensures r.Ok? ==> IsAscending(r.value.0)
    decreases |readings|
  {
    if readings == [] then Ok((keyframes, usedText))
    else
      var reading := readings[0];
      var time :- reading.time;
      if HasTime(keyframes, time) then Err(DuplicateKeyframeTime(time, reading.timeStr))
      else
        var value :- reading.value;
        AddReadings(readings[1..], Insert(keyframes, time, value), usedText || reading.isText)
  }

  /** Reading has no effects, so reading every entry first and then adding them is AddKeyframes. */
  lemma {:induction false} AddKeyframesReads(param: Parameter, entries: seq<(string, Json)>,
                                             sampleRate: real, inputLength: nat,
                                             keyframes: Keyframes, usedText: bool)
    requires IsAscending(keyframes)
    ensures AddKeyframes(param, entries, sampleRate, inputLength, keyframes, usedText)
         == AddReadings(ReadEntries(param, entries, sampleRate, inputLength), keyframes, usedText)
    decreases |entries|
  {
    if entries != [] {
      var readings := ReadEntries(param, entries, sampleRate, inputLength);
      assert ReadEntries(param, entries[1..], sampleRate, inputLength) == readings[1..];
      var reading := readings[0];
      if reading.time.Ok? && !HasTime(keyframes, reading.time.value) && reading.value.Ok? {
        AddKeyframesReads(param, entries[1..], sampleRate, inputLength,
                          Insert(keyframes, reading.time.value, reading.value.value), usedText || reading.isText);
      }
    }
  }

  /** A keyframe object's track is the object's entries, read and added to an empty track. */
  lemma ObjectReads(param: Parameter, entries: seq<(string, Json)>, sampleRate: real, inputLength: nat)
    ensures BuildKeyframes(param, Object(entries), sampleRate, inputLength)
         == AddReadings(ReadEntries(param, entries, sampleRate, inputLength), [], false)
  {
    assert BuildKeyframes(param, Object(entries), sampleRate, inputLength)
        == AddKeyframes(param, entries, sampleRate, inputLength, [], false);
    AddKeyframesReads(param, entries, sampleRate, inputLength, [], false);
  }

  /** Every entry has a valid time and a valid value. */
  predicate AllResolve(readings: seq<EntryReading>) {
    forall k | 0 <= k < |readings| :: readings[k].time.Ok? && readings[k].value.Ok?
  }

  /** The keyframes the entries stand for, in key order. */
  function ResolvedKeyframes(readings: seq<EntryReading>): (kfs: seq<Keyframe>)
    requires AllResolve(readings)
    ensures |kfs| == |readings|
    ensures forall k | 0 <= k < |readings| :: kfs[k] == Keyframe(readings[k].time.value, readings[k].value.value)
  {
    seq(|readings|, k requires 0 <= k < |readings| => Keyframe(readings[k].time.value, readings[k].value.value))
  }

  /** No two entries resolve to the same time, and none to a time the track already has. */
  predicate TimesFresh(readings: seq<EntryReading>, keyframes: Keyframes)
    requires AllResolve(readings)
  {
    (forall i, j | 0 <= i < j < |readings| :: readings[i].time.value != readings[j].time.value) &&
    (forall k | 0 <= k < |readings| :: !HasTime(keyframes, readings[k].time.value))
  }

  /** Whether a definition supplies any value as text. */
  predicate UsesText(definition: Json) {
    definition.Text? ||
    (definition.Object? && exists k | 0 <= k < |definition.members| :: definition.members[k].1.Text?)
  }

  /**
   * Entries are accepted exactly when every one resolves and no resolved time
   * repeats, among them or against the keyframes already present.
   */
  lemma {:induction false} AddReadingsSucceeds(readings: seq<EntryReading>, keyframes: Keyframes, usedText: bool)
    requires IsAscending(keyframes)
    ensures AddReadings(readings, keyframes, usedText).Ok?
        <==> AllResolve(readings) && TimesFresh(readings, keyframes)
    decreases |readings|
  {
    if readings != [] {
      var first := readings[0];
      var tail := readings[1..];
      assert forall k | 0 <= k < |tail| :: tail[k] == readings[k + 1];
      if first.time.Ok? && !HasTime(keyframes, first.time.value) && first.value.Ok? {
        var next := Insert(keyframes, first.time.value, first.value.value);
        AddReadingsSucceeds(tail, next, usedText || first.isText);
        assert AllResolve(readings) <==> AllResolve(tail) by {
          if AllResolve(tail) {
            forall k | 0 <= k < |readings| ensures readings[k].time.Ok? && readings[k].value.Ok? {
              if k > 0 {
                assert readings[k] == tail[k - 1];
              }
            }
          }
        }
        if AllResolve(readings) {
          FreshSplit(readings, keyframes);
        }
      } else if AllResolve(readings) {
        assert !TimesFresh(readings, keyframes);
      }
    }
  }

  /** Freshness of all entries is freshness of the first and of the rest against the grown track. */
  lemma {:induction false} FreshSplit(readings: seq<EntryReading>, keyframes: Keyframes)
    requires IsAscending(keyframes) && readings != [] && AllResolve(readings)
    requires !HasTime(keyframes, readings[0].time.value)
    ensures AllResolve(readings[1..])
    ensures TimesFresh(readings, keyframes)
        <==> TimesFresh(readings[1..], Insert(keyframes, readings[0].time.value, readings[0].value.value))
  {
    var time := readings[0].time.value;
    var next := Insert(keyframes, time, readings[0].value.value);
    var tail := readings[1..];
    assert forall k | 0 <= k < |tail| :: tail[k] == readings[k + 1];
    assert AllResolve(tail);
    forall k | 0 <= k < |tail|
      ensures HasTime(next, tail[k].time.value) <==> HasTime(keyframes, tail[k].time.value) || tail[k].time.value == time
    {
      HasTimeAfterInsert(keyframes, time, readings[0].value.value, tail[k].time.value);
    }
    if TimesFresh(tail, next) {
      forall i, j | 0 <= i < j < |readings| ensures readings[i].time.value != readings[j].time.value {
        assert readings[j] == tail[j - 1];
        if i > 0 {
          assert readings[i] == tail[i - 1];
        }
      }
      forall k | 0 <= k < |readings| ensures !HasTime(keyframes, readings[k].time.value) {
        if k > 0 {
          assert readings[k] == tail[k - 1];
        }
      }
    }
    if TimesFresh(readings, keyframes) {
      forall i, j | 0 <= i < j < |tail| ensures tail[i].time.value != tail[j].time.value {
        assert tail[i] == readings[i + 1] && tail[j] == readings[j + 1];
      }
      forall k | 0 <= k < |tail| ensures !HasTime(next, tail[k].time.value) {
        assert tail[k] == readings[k + 1];
      }
    }
  }

  /** Accepted entries add one keyframe each. */
  lemma {:induction false} AddReadingsLength(readings: seq<EntryReading>, keyframes: Keyframes, usedText: bool)
    requires IsAscending(keyframes)
    requires AddReadings(readings, keyframes, usedText).Ok?
    ensures |AddReadings(readings, keyframes, usedText).value.0| == |keyframes| + |readings|
    decreases |readings|
  {
    if readings != [] {
      var first := readings[0];
      AddReadingsLength(readings[1..], Insert(keyframes, first.time.value, first.value.value),
                        usedText || first.isText);
    }
  }

  /** Accepted entries leave exactly the old keyframes and the resolved entries. */
  lemma {:induction false} AddReadingsMembers(readings: seq<EntryReading>, keyframes: Keyframes, usedText: bool)
    requires IsAscending(keyframes)
    requires AddReadings(readings, keyframes, usedText).Ok?
    ensures AllResolve(readings)
    ensures var track := AddReadings(readings, keyframes, usedText).value.0;
      forall kf :: kf in track <==> kf in keyframes || kf in ResolvedKeyframes(readings)
    decreases |readings|
  {
    AddReadingsSucceeds(readings, keyframes, usedText);
    if readings != [] {
      var first := readings[0];
      var tail := readings[1..];
      var next := Insert(keyframes, first.time.value, first.value.value);
      FreshSplit(readings, keyframes);
      AddReadingsMembers(tail, next, usedText || first.isText);
      ResolvedKeyframesSplit(readings);
    }
  }

  /** The resolved keyframes of the entries are those of the first and of the rest. */
  lemma {:induction false} ResolvedKeyframesSplit(readings: seq<EntryReading>)
    requires readings != [] && AllResolve(readings)
    ensures AllResolve(readings[1..])
    ensures ResolvedKeyframes(readings)
         == [Keyframe(readings[0].time.value, readings[0].value.value)] + ResolvedKeyframes(readings[1..])
  {
    var tail := readings[1..];
    assert forall k | 0 <= k < |tail| :: tail[k] == readings[k + 1];
    assert AllResolve(tail);
    var all := ResolvedKeyframes(readings);
    var rest := ResolvedKeyframes(tail);
    assert |all| == |[all[0]] + rest|;
    forall k | 0 <= k < |all| ensures all[k] == ([all[0]] + rest)[k] {
      if k > 0 {
        assert all[k] == rest[k - 1];
      }
    }
  }

  /** Accepted entries note a text value exactly when one of them is text. */
  lemma {:induction false} AddReadingsText(readings: seq<EntryReading>, keyframes: Keyframes, usedText: bool)
    requires IsAscending(keyframes)
    requires AddReadings(readings, keyframes, usedText).Ok?
    ensures AddReadings(readings, keyframes, usedText).value.1
        <==> usedText || exists k | 0 <= k < |readings| :: readings[k].isText
    decreases |readings|
  {
    if readings != [] {
      var first := readings[0];
      var tail := readings[1..];
      AddReadingsText(tail, Insert(keyframes, first.time.value, first.value.value), usedText || first.isText);
      if exists k | 0 <= k < |readings| :: readings[k].isText {
        var k :| 0 <= k < |readings| && readings[k].isText;
        if k > 0 {
          assert tail[k - 1].isText;
        }
      }
      if exists k | 0 <= k < |tail| :: tail[k].isText {
        var k :| 0 <= k < |tail| && tail[k].isText;
        assert readings[k + 1].isText;
      }
    }
  }

  /** A primitive definition is one keyframe at time 0 holding the normalised value. */
  lemma ScalarDefinition(param: Parameter, definition: Json, sampleRate: real, inputLength: nat)
    requires IsPrimitive(definition)
    ensures var r := BuildKeyframes(param, definition, sampleRate, inputLength);
      var v := ValueFromJsonPrimitive(param, definition);
      (r.Ok? <==> v.Ok?) &&
      (r.Ok? ==> r.value == ([Keyframe(0, v.value)], UsesText(definition))) &&
      (r.Err? ==> r.error == v.error)
  {
  }

  /** A definition that is neither a primitive nor an object (an array) is refused. */
  lemma ArrayDefinitionRefused(param: Parameter, definition: Json, sampleRate: real, inputLength: nat)
    requires !IsPrimitive(definition) && !definition.Object?
    ensures BuildKeyframes(param, definition, sampleRate, inputLength) == Err(NotAnObject)
  {
  }

  /** A keyframe object is accepted exactly when its entries resolve to distinct times. */
  lemma ObjectDefinitionAccepted(param: Parameter, definition: Json, sampleRate: real, inputLength: nat)
    requires definition.Object?
    ensures var readings := ReadEntries(param, definition.members, sampleRate, inputLength);
      BuildKeyframes(param, definition, sampleRate, inputLength).Ok?
      <==> AllResolve(readings) && TimesFresh(readings, [])
  {
    ObjectReads(param, definition.members, sampleRate, inputLength);
    AddReadingsSucceeds(ReadEntries(param, definition.members, sampleRate, inputLength), [], false);
  }

  /**
   * An accepted keyframe object has one keyframe per entry, each at its resolved
   * time with its normalised value, and uses text exactly when an entry is text.
   */
  lemma ObjectDefinitionContents(param: Parameter, definition: Json, sampleRate: real, inputLength: nat)
    requires definition.Object?
    requires BuildKeyframes(param, definition, sampleRate, inputLength).Ok?
    ensures var (track, text) := BuildKeyframes(param, definition, sampleRate, inputLength).value;
      var readings := ReadEntries(param, definition.members, sampleRate, inputLength);
      |track| == |definition.members| && AllResolve(readings) &&
      (forall kf :: kf in track <==> kf in ResolvedKeyframes(readings)) &&
      (text <==> UsesText(definition))
  {
    var entries := definition.members;
    var readings := ReadEntries(param, entries, sampleRate, inputLength);
    ObjectReads(param, entries, sampleRate, inputLength);
    AddReadingsContents(readings);
    assert (exists k | 0 <= k < |readings| :: readings[k].isText) <==> UsesText(definition) by {
      assert forall k | 0 <= k < |readings| :: readings[k].isText == entries[k].1.Text?;
    }
  }

  /** Accepted entries read into an empty track: one keyframe each, the resolved ones, text if any entry is. */
  lemma AddReadingsContents(readings: seq<EntryReading>)
    requires AddReadings(readings, [], false).Ok?
    ensures var (track, text) := AddReadings(readings, [], false).value;
      |track| == |readings| && AllResolve(readings) &&
      (forall kf :: kf in track <==> kf in ResolvedKeyframes(readings)) &&
      (text <==> exists k | 0 <= k < |readings| :: readings[k].isText)
  {
    AddReadingsLength(readings, [], false);
    AddReadingsMembers(readings, [], false);
    AddReadingsText(readings, [], false);
  }

  /** An empty keyframe object is accepted and gives a track with no keyframe, which cannot be played. */
  lemma EmptyObjectGivesEmptyTrack(param: Parameter, sampleRate: real, inputLength: nat)
    ensures BuildKeyframes(param, Object([]), sampleRate, inputLength) == Ok(([], false))
    ensures !IsPlayableTrack([])
  {
  }

  /** A non-empty definition that is accepted gives a playable track. */
  lemma {:induction false} NonEmptyDefinitionPlayable(param: Parameter, definition: Json, sampleRate: real, inputLength: nat)
    requires definition != Object([])
    requires BuildKeyframes(param, definition, sampleRate, inputLength).Ok?
    ensures IsPlayableTrack(BuildKeyframes(param, definition, sampleRate, inputLength).value.0)
  {
    if !IsPrimitive(definition) {
      ObjectDefinitionContents(param, definition, sampleRate, inputLength);
      assert definition.members != [];
    }
  }

  /** Without text values every keyframe value is a number from the document, so it lies in [0,1]. */
  lemma {:induction false} NumericTrackInUnitRange(param: Parameter, definition: Json, sampleRate: real, inputLength: nat)
    requires BuildKeyframes(param, definition, sampleRate, inputLength).Ok?
    requires !UsesText(definition)
    ensures forall kf | kf in BuildKeyframes(param, definition, sampleRate, inputLength).value.0 ::
      0.0 <= kf.value <= 1.0
  {
    var track := BuildKeyframes(param, definition, sampleRate, inputLength).value.0;
    if !IsPrimitive(definition) {
      ObjectDefinitionContents(param, definition, sampleRate, inputLength);
      var entries := definition.members;
      var readings := ReadEntries(param, entries, sampleRate, inputLength);
      forall kf | kf in track ensures 0.0 <= kf.value <= 1.0 {
        var kfs := ResolvedKeyframes(readings);
        var k :| 0 <= k < |kfs| && kfs[k] == kf;
        assert !entries[k].1.Text?;
        NumericEntryInUnitRange(param, entries[k], sampleRate, inputLength);
      }
    }
  }

  /** A resolved entry whose value is not text holds a number from [0,1]. */
  lemma NumericEntryInUnitRange(param: Parameter, entry: (string, Json), sampleRate: real, inputLength: nat)
    requires ReadEntry(param, entry, sampleRate, inputLength).value.Ok? && !entry.1.Text?
    ensures entry.1.Number?
    ensures ReadEntry(param, entry, sampleRate, inputLength).value.value == entry.1.number
    ensures 0.0 <= entry.1.number <= 1.0
  {
  }

  /**
   * One member of the document is accepted exactly when its name is a parameter,
   * its track builds, and, if it uses text, that parameter passes the probe; the
   * probe is not consulted otherwise.
   */
  lemma DefinitionTrackMeaning(parameters: seq<Parameter>, name: string, definition: Json,
                               sampleRate: real, inputLength: nat)
    ensures var r := DefinitionTrack(parameters, name, definition, sampleRate, inputLength);
      var found := GetPluginParameterByName(parameters, name);
      (found.Err? ==> r == Err(UnknownParameter(name))) &&
      (found.Ok? ==>
        var built := BuildKeyframes(parameters[found.value], definition, sampleRate, inputLength);
        (r.Ok? <==> built.Ok? && (UsesText(definition) ==> TextRoundTrips(parameters[found.value]))) &&
        (r.Ok? ==> r.value == built.value.0) &&
        (built.Ok? && UsesText(definition) && !TextRoundTrips(parameters[found.value]) ==>
           r == Err(TextValueUnsupported(name))))
  {
    var found := GetPluginParameterByName(parameters, name);
    if found.Ok? {
      var param := parameters[found.value];
      if IsPrimitive(definition) {
        ScalarDefinition(param, definition, sampleRate, inputLength);
      } else if definition.Object? {
        ObjectDefinitionAccepted(param, definition, sampleRate, inputLength);
        if BuildKeyframes(param, definition, sampleRate, inputLength).Ok? {
          ObjectDefinitionContents(param, definition, sampleRate, inputLength);
        }
      }
    }
  }

  /** The document's names, each with a distinct key. */
  predicate NamesDistinct(definitions: seq<(string, Json)>) {
    forall i, j | 0 <= i < j < |definitions| :: definitions[i].0 != definitions[j].0
  }

  function Names(definitions: seq<(string, Json)>): set<string> {
    set k | 0 <= k < |definitions| :: definitions[k].0
  }

  /** A member that is accepted is stored and the rest of the document follows. */
  lemma BuildAutomationStep(parameters: seq<Parameter>, definitions: seq<(string, Json)>,
                            sampleRate: real, inputLength: nat, automation: ParameterAutomation)
    requires definitions != []
    ensures var track := DefinitionTrack(parameters, definitions[0].0, definitions[0].1, sampleRate, inputLength);
      var r := BuildAutomation(parameters, definitions, sampleRate, inputLength, automation);
      (track.Err? ==> r.Err?) &&
      (track.Ok? ==> r == BuildAutomation(parameters, definitions[1..], sampleRate, inputLength,
                                          automation[definitions[0].0 := track.value]))
  {
  }

  /** The document is accepted exactly when every member is. */
  lemma {:induction false} BuildAutomationSucceeds(parameters: seq<Parameter>, definitions: seq<(string, Json)>,
                                                   sampleRate: real, inputLength: nat, automation: ParameterAutomation)
    ensures BuildAutomation(parameters, definitions, sampleRate, inputLength, automation).Ok?
        <==> forall k | 0 <= k < |definitions| ::
               DefinitionTrack(parameters, definitions[k].0, definitions[k].1, sampleRate, inputLength).Ok?
    decreases |definitions|
  {
    if definitions != [] {
      var (name, definition) := definitions[0];
      var tail := definitions[1..];
      assert forall k | 0 <= k < |tail| :: tail[k] == definitions[k + 1];
      var track := DefinitionTrack(parameters, name, definition, sampleRate, inputLength);
      BuildAutomationStep(parameters, definitions, sampleRate, inputLength, automation);
      if track.Ok? {
        BuildAutomationSucceeds(parameters, tail, sampleRate, inputLength, automation[name := track.value]);
        if forall k | 0 <= k < |tail| :: DefinitionTrack(parameters, tail[k].0, tail[k].1, sampleRate, inputLength).Ok? {
          forall k | 0 <= k < |definitions|
            ensures DefinitionTrack(parameters, definitions[k].0, definitions[k].1, sampleRate, inputLength).Ok?
          {
            if k > 0 {
              assert definitions[k] == tail[k - 1];
            }
          }
        }
      }
    }
  }

  /**
   * An accepted document stores every member's track under its name; names it
   * does not mention keep what they had.
   */
  lemma {:induction false} BuildAutomationContents(parameters: seq<Parameter>, definitions: seq<(string, Json)>,
                                                   sampleRate: real, inputLength: nat, automation: ParameterAutomation)
    requires BuildAutomation(parameters, definitions, sampleRate, inputLength, automation).Ok?
    requires NamesDistinct(definitions)
    ensures var result := BuildAutomation(parameters, definitions, sampleRate, inputLength, automation).value;
      result.Keys == automation.Keys + Names(definitions) &&
      (forall name | name in automation && name !in Names(definitions) :: result[name] == automation[name]) &&
      (forall k | 0 <= k < |definitions| ::
         Ok(result[definitions[k].0])
         == DefinitionTrack(parameters, definitions[k].0, definitions[k].1, sampleRate, inputLength))
    decreases |definitions|
  {
    if definitions != [] {
      var (name, definition) := definitions[0];
      var tail := definitions[1..];
      assert forall k | 0 <= k < |tail| :: tail[k] == definitions[k + 1];
      var track := DefinitionTrack(parameters, name, definition, sampleRate, inputLength);
      BuildAutomationStep(parameters, definitions, sampleRate, inputLength, automation);
      var next := automation[name := track.value];
      BuildAutomationContents(parameters, tail, sampleRate, inputLength, next);
      assert Names(definitions) == {name} + Names(tail) by {
        forall n | n in Names(definitions) ensures n in {name} + Names(tail) {
          var k :| 0 <= k < |definitions| && definitions[k].0 == n;
          if k > 0 {
            assert tail[k - 1].0 == n;
          }
        }
        forall n | n in Names(tail) ensures n in Names(definitions) {
          var k :| 0 <= k < |tail| && tail[k].0 == n;
          assert definitions[k + 1].0 == n;
        }
      }
      assert name !in Names(tail) by {
        forall k | 0 <= k < |tail| ensures tail[k].0 != name {
          assert definitions[0].0 != definitions[k + 1].0;
        }
      }
    }
  }

  /**
   * parseAutomationDefinition's contract: the document must be an object; it is
   * accepted exactly when every member is (a known name, valid and distinct times,
   * valid values, and text only for parameters passing the probe); the table then
   * holds exactly the document's names, each with its own track.
   */
  lemma {:induction false} ParsedAutomationMeaning(parameters: seq<Parameter>, document: Json,
                                                   sampleRate: real, inputLength: nat)
    requires document.Object? ==> IsMemberList(document.members)
    ensures var r := ParsedAutomation(parameters, document, sampleRate, inputLength);
      (!document.Object? ==> r == Err(NotAnObject)) &&
      (document.Object? ==>
        var definitions := document.members;
        (r.Ok? <==> forall k | 0 <= k < |definitions| ::
                      DefinitionTrack(parameters, definitions[k].0, definitions[k].1, sampleRate, inputLength).Ok?) &&
        (r.Ok? ==>
          r.value.Keys == Names(definitions) &&
          forall k | 0 <= k < |definitions| ::
            Ok(r.value[definitions[k].0])
            == DefinitionTrack(parameters, definitions[k].0, definitions[k].1, sampleRate, inputLength)))
  {
    if document.Object? {
      var definitions := document.members;
      BuildAutomationSucceeds(parameters, definitions, sampleRate, inputLength, map[]);
      if ParsedAutomation(parameters, document, sampleRate, inputLength).Ok? {
        MemberKeysDistinct(definitions);
        BuildAutomationContents(parameters, definitions, sampleRate, inputLength, map[]);
      }
    }
  }

  /**
   * Every name in an accepted table is a parameter of the plugin, and every track
   * is sorted; the tracks are playable unless the document held an empty object.
   */
  lemma {:induction false} ParsedAutomationUsable(parameters: seq<Parameter>, document: Json,
                                                  sampleRate: real, inputLength: nat)
    requires document.Object? ==> IsMemberList(document.members)
    requires ParsedAutomation(parameters, document, sampleRate, inputLength).Ok?
    ensures var table := ParsedAutomation(parameters, document, sampleRate, inputLength).value;
      (forall name | name in table :: GetPluginParameterByName(parameters, name).Ok? && IsAscending(table[name])) &&
      ((forall k | 0 <= k < |document.members| :: document.members[k].1 != Object([])) ==> IsPlayable(table))
  {
    ParsedAutomationMeaning(parameters, document, sampleRate, inputLength);
    var table := ParsedAutomation(parameters, document, sampleRate, inputLength).value;
    var definitions := document.members;
    forall name | name in table
      ensures GetPluginParameterByName(parameters, name).Ok? && IsAscending(table[name])
      ensures (forall k | 0 <= k < |definitions| :: definitions[k].1 != Object([])) ==> IsPlayableTrack(table[name])
    {
      var k :| 0 <= k < |definitions| && definitions[k].0 == name;
      var (n, definition) := definitions[k];
      DefinitionTrackMeaning(parameters, name, definition, sampleRate, inputLength);
      var index := GetPluginParameterByName(parameters, name).value;
      if definition != Object([]) {
        NonEmptyDefinitionPlayable(parameters[index], definition, sampleRate, inputLength);
      }
    }
  }

  // ---------------------------------------------------------------------------
  // A member with no keyframe
  // ---------------------------------------------------------------------------

  /**
   * As written, the document {"Gain": {}} is accepted and gives Gain a track with
   * no keyframe. applyParameters cannot evaluate that track: upper_bound returns
   * the end of the empty map, and the first branch reads the keyframe there.
   */
  lemma EmptyObjectAccepted(param: Parameter, sampleRate: real, inputLength: nat)
    requires param.name == "Gain"
    ensures ParsedAutomation([param], Object([("Gain", Object([]))]), sampleRate, inputLength)
         == Ok(map["Gain" := []])
    ensures !IsPlayable(map["Gain" := []])
  {
    assert GetPluginParameterByName([param], "Gain") == Ok(0);
    EmptyObjectGivesEmptyTrack(param, sampleRate, inputLength);
    assert !IsPlayableTrack(map["Gain" := []]["Gain"]);
  }

  /** The first member whose definition is an empty keyframe object, if there is one. */
  function EmptyObjectMember(definitions: seq<(string, Json)>): (r: Option<nat>)
    ensures r.Some? ==>
      r.value < |definitions| && definitions[r.value].1 == Object([]) &&
      forall k | 0 <= k < r.value :: definitions[k].1 != Object([])
    ensures r.None? ==> forall k | 0 <= k < |definitions| :: definitions[k].1 != Object([])
    decreases |definitions|
  {
    if definitions == [] then None
    else if definitions[0].1 == Object([]) then Some(0)
    else match EmptyObjectMember(definitions[1..])
      case None => None
      case Some(k) => Some(k + 1)
  }

  /**
   * The reading the engine evidently needs: a document is read as before, and one
   * with a member that has no keyframe is then refused, naming the first such
   * member. Every table it accepts can be evaluated at any sample index.
   */
  function CheckedAutomation(parameters: seq<Parameter>, document: Json, sampleRate: real, inputLength: nat)
    : (r: Result<ParameterAutomation>)
    requires document.Object? ==> IsMemberList(document.members)
    ensures r.Ok? <==>
      ParsedAutomation(parameters, document, sampleRate, inputLength).Ok? &&
      (document.Object? ==> forall k | 0 <= k < |document.members| :: document.members[k].1 != Object([]))
    ensures r.Ok? ==> r == ParsedAutomation(parameters, document, sampleRate, inputLength) && IsPlayable(r.value)
    ensures ParsedAutomation(parameters, document, sampleRate, inputLength).Err? ==>
      r == ParsedAutomation(parameters, document, sampleRate, inputLength)
    ensures r.Err? && ParsedAutomation(parameters, document, sampleRate, inputLength).Ok? ==>
      exists k | 0 <= k < |document.members| ::
        document.members[k].1 == Object([]) && r.error == EmptyKeyframes(document.members[k].0)
  {
    var automation :- ParsedAutomation(parameters, document, sampleRate, inputLength);
    match EmptyObjectMember(document.members)
    case Some(k) => Err(EmptyKeyframes(document.members[k].0))
    case None => ParsedAutomationUsable(parameters, document, sampleRate, inputLength); Ok(automation)
  }

  /** {"Gain": 0.5} is one keyframe at time 0 holding 0.5. */
  lemma ScalarShorthandExample(param: Parameter, sampleRate: real, inputLength: nat)
    requires param.name == "Gain"
    ensures ParsedAutomation([param], Object([("Gain", Number(0.5))]), sampleRate, inputLength)
         == Ok(map["Gain" := [Keyframe(0, 0.5)]])
  {
    assert GetPluginParameterByName([param], "Gain") == Ok(0);
  }

  /**
   * A second entry at the first one's time is refused, and the message names the
   * second key; "0" and "0s" are such a pair.
   */
  lemma RepeatedTimeRefused(readings: seq<EntryReading>)
    requires |readings| == 2 && readings[0].time.Ok? && readings[0].value.Ok?
    requires readings[1].time == readings[0].time
    ensures AddReadings(readings, [], false) == Err(DuplicateKeyframeTime(readings[0].time.value, readings[1].timeStr))
  {
    var time := readings[0].time.value;
    var track := Insert([], time, readings[0].value.value);
    assert track == [Keyframe(time, readings[0].value.value)];
    assert HasTime(track, time) by {
      assert track[0] in track;
    }
    assert readings[1..][0] == readings[1];
  }

  /**
   * The duplicate-time error in general: when the entries before entry k are all
   * accepted and entry k's time is already taken, by the track or by one of them,
   * the result is the duplicate error naming that time and entry k's key.
   */
  lemma {:induction false} DuplicateTimeRefused(readings: seq<EntryReading>, keyframes: Keyframes,
                                                usedText: bool, k: nat)
    requires IsAscending(keyframes) && k < |readings|
    requires AllResolve(readings[..k]) && TimesFresh(readings[..k], keyframes)
    requires readings[k].time.Ok?
    requires HasTime(keyframes, readings[k].time.value) ||
             exists j | 0 <= j < k :: readings[j].time == readings[k].time
    ensures AddReadings(readings, keyframes, usedText)
         == Err(DuplicateKeyframeTime(readings[k].time.value, readings[k].timeStr))
    decreases k
  {
    if k > 0 {
      var first := readings[0];
      assert readings[..k][0] == first;
      var time := first.time.value;
      var next := Insert(keyframes, time, first.value.value);
      var tail := readings[1..];
      assert readings[..k][1..] == tail[..k - 1];
      FreshSplit(readings[..k], keyframes);
      var t := readings[k].time.value;
      assert tail[k - 1] == readings[k];
      HasTimeAfterInsert(keyframes, time, first.value.value, t);
      if !HasTime(keyframes, t) && t != time {
        var j :| 0 <= j < k && readings[j].time == readings[k].time;
        assert j > 0 && tail[j - 1] == readings[j];
      }
      DuplicateTimeRefused(tail, next, usedText || first.isText, k - 1);
    }
  }

  /**
   * In a keyframe object: entry k whose time is already taken by an earlier
   * accepted entry is refused with the duplicate error naming its own key.
   */
  lemma ObjectDuplicateTimeRefused(param: Parameter, entries: seq<(string, Json)>,
                                   sampleRate: real, inputLength: nat, k: nat, j: nat)
    requires j < k < |entries|
    requires var readings := ReadEntries(param, entries, sampleRate, inputLength);
      AllResolve(readings[..k]) && TimesFresh(readings[..k], []) &&
      readings[k].time.Ok? && readings[k].time == readings[j].time
    ensures var readings := ReadEntries(param, entries, sampleRate, inputLength);
      BuildKeyframes(param, Object(entries), sampleRate, inputLength)
      == Err(DuplicateKeyframeTime(readings[k].time.value, entries[k].0))
  {
    var readings := ReadEntries(param, entries, sampleRate, inputLength);
    assert readings[..k][j] == readings[j];
    ObjectReads(param, entries, sampleRate, inputLength);
    DuplicateTimeRefused(readings, [], false, k);
  }

  /** A single accepted reading is fresh against an empty track. */
  lemma FirstReadingAccepted(readings: seq<EntryReading>)
    requires readings != [] && readings[0].time.Ok? && readings[0].value.Ok?
    ensures AllResolve(readings[..1]) && TimesFresh(readings[..1], [])
  {
    assert readings[..1] == [readings[0]];
  }

  /** The two entries of the object {"0": 0.5, "0s": 0.25}, read: the first is accepted at sample 0, the second lands on it. */
  lemma ZeroEntriesRead(param: Parameter, entries: seq<(string, Json)>, sampleRate: real, inputLength: nat)
    requires entries == [("0", Number(0.5)), ("0s", Number(0.25))]
    ensures var readings := ReadEntries(param, entries, sampleRate, inputLength);
      readings[0].time == Ok(0) && readings[1].time == readings[0].time &&
      AllResolve(readings[..1]) && TimesFresh(readings[..1], [])
  {
    var readings := ReadEntries(param, entries, sampleRate, inputLength);
    ZeroTimesExample(sampleRate, inputLength);
    assert readings[0] == ReadEntry(param, ("0", Number(0.5)), sampleRate, inputLength);
    assert readings[1] == ReadEntry(param, ("0s", Number(0.25)), sampleRate, inputLength);
    FirstReadingAccepted(readings);
  }

  /** "0" and "0s" name the same sample, so the object {"0": 0.5, "0s": 0.25} is refused at "0s". */
  lemma ZeroAndZeroSecondsRefused(param: Parameter, entries: seq<(string, Json)>, sampleRate: real, inputLength: nat)
    requires entries == [("0", Number(0.5)), ("0s", Number(0.25))]
    ensures BuildKeyframes(param, Object(entries), sampleRate, inputLength) == Err(DuplicateKeyframeTime(0, "0s"))
  {
    ZeroEntriesRead(param, entries, sampleRate, inputLength);
    ObjectDuplicateTimeRefused(param, entries, sampleRate, inputLength, 1, 0);
  }

  /** A number above 1 is refused. */
  lemma OutOfRangeExample(param: Parameter, sampleRate: real, inputLength: nat)
    ensures BuildKeyframes(param, Number(1.5), sampleRate, inputLength) == Err(ValueOutOfRange(1.5))
  {
  }

  /** Text for a parameter failing the probe is refused after its track is built. */
  lemma TextUnsupportedExample(param: Parameter, sampleRate: real, inputLength: nat)
    requires param.name == "Gain" && !TextRoundTrips(param)
    ensures ParsedAutomation([param], Object([("Gain", Text("foo"))]), sampleRate, inputLength)
         == Err(TextValueUnsupported("Gain"))
  {
    assert GetPluginParameterByName([param], "Gain") == Ok(0);
  }

  // ---------------------------------------------------------------------------
  // Evaluating a track
  // ---------------------------------------------------------------------------

  /** std::upper_bound: the position of the first keyframe later than sampleIndex. */
  function UpperBound(keyframes: Keyframes, sampleIndex: nat): (next: nat)
    requires IsAscending(keyframes)
    ensures next <= |keyframes|
    ensures forall k | 0 <= k < next :: keyframes[k].time <= sampleIndex
    ensures forall k | next <= k < |keyframes| :: sampleIndex < keyframes[k].time
  {
    if keyframes == [] || sampleIndex < keyframes[0].time then 0
    else 1 + UpperBound(keyframes[1..], sampleIndex)
  }

  /** std::lerp(a, b, t) */
  function Lerp(a: real, b: real, t: real): real {
    a + t * (b - a)
  }

  /**
   * The value applyParameters computes for a track: flat before the first and
   * after the last keyframe, linear between the two keyframes around sampleIndex.
   */
  function ValueAt(keyframes: Keyframes, sampleIndex: nat): real
    requires IsPlayableTrack(keyframes)
  {
    var next := UpperBound(keyframes, sampleIndex);
    if next == 0 then keyframes[0].value
    else if next == |keyframes| then keyframes[next - 1].value
    else
      var prev := keyframes[next - 1];
      var keyframeDistance := keyframes[next].time - prev.time;
      var relativePos := (sampleIndex - prev.time) as real / keyframeDistance as real;
      Lerp(prev.value, keyframes[next].value, relativePos)
  }

  /** The upper bound is the one position the ordering allows. */
  lemma UpperBoundIs(keyframes: Keyframes, sampleIndex: nat, next: nat)
    requires IsAscending(keyframes) && next <= |keyframes|
    requires next > 0 ==> keyframes[next - 1].time <= sampleIndex
    requires next < |keyframes| ==> sampleIndex < keyframes[next].time
    ensures UpperBound(keyframes, sampleIndex) == next
  {
  }

  /** Before the first keyframe the track holds the first value. */
  lemma ValueBeforeFirst(keyframes: Keyframes, sampleIndex: nat)
    requires IsPlayableTrack(keyframes) && sampleIndex < keyframes[0].time
    ensures ValueAt(keyframes, sampleIndex) == keyframes[0].value
  {
    UpperBoundIs(keyframes, sampleIndex, 0);
  }

  /** From the last keyframe on the track holds the last value. */
  lemma ValueFromLast(keyframes: Keyframes, sampleIndex: nat)
    requires IsPlayableTrack(keyframes) && keyframes[|keyframes| - 1].time <= sampleIndex
    ensures ValueAt(keyframes, sampleIndex) == keyframes[|keyframes| - 1].value
  {
    UpperBoundIs(keyframes, sampleIndex, |keyframes|);
  }

  /**
   * From one keyframe up to the next the value moves linearly from the first
   * keyframe's value towards the second's, and stays between the two.
   */
  lemma ValueBetween(keyframes: Keyframes, k: nat, sampleIndex: nat)
    requires IsPlayableTrack(keyframes) && k + 1 < |keyframes|
    requires keyframes[k].time <= sampleIndex < keyframes[k + 1].time
    ensures var prev := keyframes[k];
      var next := keyframes[k + 1];
      ValueAt(keyframes, sampleIndex)
      == prev.value + (sampleIndex - prev.time) as real / (next.time - prev.time) as real * (next.value - prev.value)
    ensures var a := keyframes[k].value;
      var b := keyframes[k + 1].value;
      (a <= b ==> a <= ValueAt(keyframes, sampleIndex) <= b) &&
      (b <= a ==> b <= ValueAt(keyframes, sampleIndex) <= a)
  {
    UpperBoundIs(keyframes, sampleIndex, k + 1);
    var prev := keyframes[k];
    var next := keyframes[k + 1];
    var t := (sampleIndex - prev.time) as real / (next.time - prev.time) as real;
    assert ValueAt(keyframes, sampleIndex) == Lerp(prev.value, next.value, t);
    RelativePositionInUnit(sampleIndex - prev.time, next.time - prev.time);
    LerpBetween(prev.value, next.value, t);
  }

  /** An offset short of the distance is a relative position in [0,1). */
  lemma RelativePositionInUnit(offset: nat, distance: nat)
    requires offset < distance
    ensures 0.0 <= offset as real / distance as real < 1.0
  {
  }

  /** std::lerp with 0 <= t <= 1 lies between its end points. */
  lemma LerpBetween(a: real, b: real, t: real)
    requires 0.0 <= t <= 1.0
    ensures a <= b ==> a <= Lerp(a, b, t) <= b
    ensures b <= a ==> b <= Lerp(a, b, t) <= a
  {
    ProductNonNegative(t, b - a);
    ProductNonNegative(1.0 - t, b - a);
    ProductNonNegative(t, a - b);
    ProductNonNegative(1.0 - t, a - b);
    assert (1.0 - t) * (b - a) == (b - a) - t * (b - a);
    assert (1.0 - t) * (a - b) == (a - b) - t * (a - b);
  }

  lemma ProductNonNegative(x: real, y: real)
    ensures 0.0 <= x && 0.0 <= y ==> 0.0 <= x * y
  {
  }

  /** At a keyframe's own time the track holds exactly that keyframe's value. */
  lemma ValueAtKeyframe(keyframes: Keyframes, k: nat)
    requires IsPlayableTrack(keyframes) && k < |keyframes|
    ensures ValueAt(keyframes, keyframes[k].time) == keyframes[k].value
  {
    if k + 1 == |keyframes| {
      ValueFromLast(keyframes, keyframes[k].time);
    } else {
      ValueBetween(keyframes, k, keyframes[k].time);
    }
  }

  /** The value at any sample lies within the range of the track's values. */
  lemma {:induction false} ValueWithinTrack(keyframes: Keyframes, sampleIndex: nat, lo: real, hi: real)
    requires IsPlayableTrack(keyframes)
    requires forall kf | kf in keyframes :: lo <= kf.value <= hi
    ensures lo <= ValueAt(keyframes, sampleIndex) <= hi
  {
    var next := UpperBound(keyframes, sampleIndex);
    if next == 0 {
      assert keyframes[0] in keyframes;
    } else if next == |keyframes| {
      assert keyframes[next - 1] in keyframes;
    } else {
      assert keyframes[next - 1] in keyframes && keyframes[next] in keyframes;
      ValueBetween(keyframes, next - 1, sampleIndex);
    }
  }

  /** Flat extrapolation: {100: 0.2, 500: 0.8} holds 0.2 at sample 0 and 0.8 at sample 10000. */
  lemma FlatExtrapolationExample()
    ensures ValueAt([Keyframe(100, 0.2), Keyframe(500, 0.8)], 0) == 0.2
    ensures ValueAt([Keyframe(100, 0.2), Keyframe(500, 0.8)], 10000) == 0.8
  {
    ValueBeforeFirst([Keyframe(100, 0.2), Keyframe(500, 0.8)], 0);
    ValueFromLast([Keyframe(100, 0.2), Keyframe(500, 0.8)], 10000);
  }

  /** Midpoint: {0: 0.0, 100: 1.0} holds 0.5 at sample 50. */
  lemma MidpointExample()
    ensures ValueAt([Keyframe(0, 0.0), Keyframe(100, 1.0)], 50) == 0.5
  {
    ValueBetween([Keyframe(0, 0.0), Keyframe(100, 1.0)], 0, 50);
  }

  // ---------------------------------------------------------------------------
  // Applying a table to the plugin
  // ---------------------------------------------------------------------------

  /**
   * The value of parameter i once every track of the table has been applied: the
   * first parameter with a track's name takes that track's value at sampleIndex.
   */
  function AppliedValue(parameters: seq<Parameter>, values: seq<real>, automation: ParameterAutomation,
                        sampleIndex: nat, i: nat): real
    requires IsPlayable(automation) && i < |values| == |parameters|
  {
    var name := parameters[i].name;
    if name in automation && GetPluginParameterByName(parameters, name) == Ok(i)
    then ValueAt(automation[name], sampleIndex)
    else values[i]
  }

  /** All of the plugin's values once the table has been applied. */
  function Applied(parameters: seq<Parameter>, values: seq<real>, automation: ParameterAutomation,
                   sampleIndex: nat): (r: seq<real>)
    requires IsPlayable(automation) && |values| == |parameters|
    ensures |r| == |values|
    ensures forall i | 0 <= i < |values| :: r[i] == AppliedValue(parameters, values, automation, sampleIndex, i)
  {
    seq(|values|, i requires 0 <= i < |values| => AppliedValue(parameters, values, automation, sampleIndex, i))
  }

  /**
   * Applying the table again, at any sample index, gives what a single application
   * at that index gives: every parameter the table reaches is overwritten, and the
   * others are left as they were.
   */
  lemma AppliedAgain(parameters: seq<Parameter>, values: seq<real>, automation: ParameterAutomation,
                     earlier: nat, later: nat)
    requires IsPlayable(automation) && |values| == |parameters|
    ensures Applied(parameters, Applied(parameters, values, automation, earlier), automation, later)
         == Applied(parameters, values, automation, later)
  {
    var once := Applied(parameters, values, automation, earlier);
    var twice := Applied(parameters, once, automation, later);
    var direct := Applied(parameters, values, automation, later);
    forall i | 0 <= i < |values| ensures twice[i] == direct[i] {
      assert twice[i] == AppliedValue(parameters, once, automation, later, i);
      assert direct[i] == AppliedValue(parameters, values, automation, later, i);
      assert once[i] == AppliedValue(parameters, values, automation, earlier, i);
    }
  }

  /**
   * applyParameters: each track's value at sampleIndex goes to its parameter. A
   * name the plugin does not know stops the application with an error; the tracks
   * applied before it keep their new values.
   */
  method ApplyParameters(plugin: Instance, automation: ParameterAutomation, sampleIndex: nat)
    returns (r: Result<()>)
    requires plugin.Valid() && IsPlayable(automation)
    modifies plugin
    ensures plugin.Valid()
    ensures r.Err? <==> exists name | name in automation :: GetPluginParameterByName(plugin.parameters, name).Err?
    ensures r.Err? ==> exists name | name in automation && GetPluginParameterByName(plugin.parameters, name).Err? ::
      r.error == UnknownParameter(name)
    ensures r.Ok? ==> plugin.values == Applied(plugin.parameters, old(plugin.values), automation, sampleIndex)
    ensures r.Err? ==> forall i | 0 <= i < |plugin.values| ::
      plugin.values[i] == old(plugin.values)[i] ||
      plugin.values[i] == Applied(plugin.parameters, old(plugin.values), automation, sampleIndex)[i]
  {
    var remaining := automation.Keys;
    ghost var initial := plugin.values;
    ghost var applied := Applied(plugin.parameters, initial, automation, sampleIndex);
    while remaining != {}
      invariant plugin.Valid() && remaining <= automation.Keys
      invariant forall name | name in automation && name !in remaining ::
        GetPluginParameterByName(plugin.parameters, name).Ok?
      invariant |plugin.values| == |initial|
      invariant forall i | 0 <= i < |plugin.values| ::
        plugin.values[i] == if plugin.parameters[i].name in remaining then initial[i] else applied[i]
      decreases remaining
    {
      var name :| name in remaining;
      var found := GetPluginParameterByName(plugin.parameters, name);
      if found.Err? {
        return Err(found.error);
      }
      var value := ValueAt(automation[name], sampleIndex);
      ghost var before := plugin.values;
      plugin.SetValue(found.value, value);
      remaining := remaining - {name};
      forall i | 0 <= i < |plugin.values|
        ensures plugin.values[i] == if plugin.parameters[i].name in remaining then initial[i] else applied[i]
      {
        if i == found.value {
          assert applied[i] == AppliedValue(plugin.parameters, initial, automation, sampleIndex, i);
        } else if plugin.parameters[i].name == name {
          assert GetPluginParameterByName(plugin.parameters, name) != Ok(i);
          assert applied[i] == AppliedValue(plugin.parameters, initial, automation, sampleIndex, i);
          assert plugin.values[i] == before[i];
        } else {
          assert plugin.values[i] == before[i];
        }
      }
    }
    assert plugin.values == applied by {
      forall i | 0 <= i < |plugin.values| ensures plugin.values[i] == applied[i] {
      }
    }
    return Ok(());
  }
}
