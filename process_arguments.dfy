/**
 * Source/ProcessCommand.cpp, lines 6-107: the `--param <name>:<value>[:n]` argument
 * and the validators the process command's options are checked with.
 */
module ProcessArguments {
  import opened Outcomes
  import opened CStdlib
  import JuceText
  import opened Utils

  /**
   * ParameterCLIArgument. The designated initialisers leave the unused value at
   * its default: an empty text for the normalised form, 0 for the text form.
   */
  datatype ParameterCliArgument = ParameterCliArgument(
    parameterName: string,
    textValue: string,
    normalizedValue: real,
    isNormalizedValue: bool)

  /**
   * parsePluginParameterArgument: the argument split at its colons. The modifier
   * is checked before the token count, and a normalised value must be a number
   * from [0,1] that uses its whole token.
   */
  function ParsePluginParameterArgument(str: string): (r: Result<ParameterCliArgument>)
    ensures r.Ok? ==> ':' !in r.value.parameterName && ':' !in r.value.textValue
    ensures r.Ok? && r.value.isNormalizedValue ==> 0.0 <= r.value.normalizedValue <= 1.0 && r.value.textValue == ""
    ensures r.Ok? && !r.value.isNormalizedValue ==> r.value.normalizedValue == 0.0
    ensures r.Err? ==> r.error.InvalidModifier? || r.error == NotKeyValuePair(str) ||
                       r.error.NormalizedValueNotANumber? || r.error.NormalizedValueOutOfRange?
  {
    var tokens := JuceText.SplitOnColons(str);
    var isNormalizedValue := |tokens| == 3;
    if isNormalizedValue && tokens[2] != "n" then Err(InvalidModifier(tokens[2]))
    else if |tokens| != 2 && |tokens| != 3 then Err(NotKeyValuePair(str))
    else
      var valueStr := tokens[1];
      if isNormalizedValue then
        match ParseFloatStrict(valueStr)
        case Err(_) => Err(NormalizedValueNotANumber(valueStr))
        case Ok(normalizedValue) =>
          if normalizedValue < 0.0 || normalizedValue > 1.0 then Err(NormalizedValueOutOfRange(normalizedValue))
          else Ok(ParameterCliArgument(tokens[0], "", normalizedValue, true))
      else
        Ok(ParameterCliArgument(tokens[0], valueStr, 0.0, false))
  }

  /** Joining two colon-free pieces with ':' and splitting again gives the pieces back. */
  lemma {:induction false} SplitTwoPieces(a: string, b: string)
    requires ':' !in a && ':' !in b
    ensures JuceText.SplitOnColons(a + ":" + b) == [a, b]
  {
    assert JuceText.JoinWithColons([b]) == b;
    assert JuceText.JoinWithColons([a, b]) == a + ":" + JuceText.JoinWithColons([a, b][1..]);
    assert [a, b][1..] == [b];
    JuceText.PiecesOfJoin([a, b]);
  }

  /** The same for three pieces. */
  lemma {:induction false} SplitThreePieces(a: string, b: string, c: string)
    requires ':' !in a && ':' !in b && ':' !in c
    ensures JuceText.SplitOnColons(a + ":" + b + ":" + c) == [a, b, c]
  {
    assert [a, b, c][1..] == [b, c];
    assert [b, c][1..] == [c];
    assert JuceText.JoinWithColons([b, c]) == b + ":" + c;
    assert JuceText.JoinWithColons([a, b, c]) == a + ":" + (b + ":" + c);
    assert a + ":" + b + ":" + c == a + ":" + (b + ":" + c);
    JuceText.PiecesOfJoin([a, b, c]);
  }

  /** "<name>:<text>" names the parameter and carries the text unchanged. */
  lemma TextArgument(name: string, text: string)
    requires ':' !in name && ':' !in text
    ensures ParsePluginParameterArgument(name + ":" + text) == Ok(ParameterCliArgument(name, text, 0.0, false))
  {
    SplitTwoPieces(name, text);
  }

  /** "<name>:<number>:n" carries a number from [0,1] as the normalised value. */
  lemma NormalizedArgument(name: string, number: string)
    requires ':' !in name && ':' !in number
    requires ParseFloatStrict(number).Ok? && 0.0 <= ParseFloatStrict(number).value <= 1.0
    ensures ParsePluginParameterArgument(name + ":" + number + ":n")
         == Ok(ParameterCliArgument(name, "", ParseFloatStrict(number).value, true))
  {
    SplitThreePieces(name, number, "n");
    assert name + ":" + number + ":" + "n" == name + ":" + number + ":n";
  }

  /** A normalised value that is no number, or lies outside [0,1], is refused with its own error. */
  lemma NormalizedArgumentRefused(name: string, number: string)
    requires ':' !in name && ':' !in number
    ensures ParseFloatStrict(number).Err? ==>
      ParsePluginParameterArgument(name + ":" + number + ":n") == Err(NormalizedValueNotANumber(number))
    ensures ParseFloatStrict(number).Ok? && !(0.0 <= ParseFloatStrict(number).value <= 1.0) ==>
      ParsePluginParameterArgument(name + ":" + number + ":n")
      == Err(NormalizedValueOutOfRange(ParseFloatStrict(number).value))
  {
    SplitThreePieces(name, number, "n");
    assert name + ":" + number + ":" + "n" == name + ":" + number + ":n";
  }

  /** A third piece other than "n" is refused first, whatever the value is. */
  lemma ModifierCheckedFirst(name: string, value: string, modifier: string)
    requires ':' !in name && ':' !in value && ':' !in modifier && modifier != "n"
    ensures ParsePluginParameterArgument(name + ":" + value + ":" + modifier) == Err(InvalidModifier(modifier))
  {
    SplitThreePieces(name, value, modifier);
  }

  /** An argument without a colon, or with more than two, is not a key-value pair. */
  lemma {:induction false} WrongPieceCount(str: string)
    requires |JuceText.SplitOnColons(str)| < 2 || |JuceText.SplitOnColons(str)| > 3
    ensures ParsePluginParameterArgument(str) == Err(NotKeyValuePair(str))
  {
  }

  /** Text without a colon is a single piece; the empty text is none. */
  lemma {:induction false} ColonFreeIsOnePiece(str: string)
    requires ':' !in str
    ensures |JuceText.SplitOnColons(str)| <= 1
  {
    if str != [] {
      JuceText.ColonFreeHasNoColon(str);
    }
  }

  /**
   * Whatever is accepted is read back from the argument: the text form is exactly
   * "<name>:<text>", the normalised form "<name>:<number>:n".
   */
  lemma {:induction false} AcceptedArgumentShape(str: string)
    requires ParsePluginParameterArgument(str).Ok?
    ensures var arg := ParsePluginParameterArgument(str).value;
      ':' !in arg.parameterName &&
      (!arg.isNormalizedValue ==> str == arg.parameterName + ":" + arg.textValue) &&
      (arg.isNormalizedValue ==>
         (0.0 <= arg.normalizedValue <= 1.0 &&
          exists number :: ':' !in number && str == arg.parameterName + ":" + number + ":n"
                           && ParseFloatStrict(number) == Ok(arg.normalizedValue)))
  {
    var tokens := JuceText.SplitOnColons(str);
    assert ':' !in tokens[0] && ':' !in tokens[1] by {
      assert tokens[0] in tokens && tokens[1] in tokens;
    }
    if |tokens| == 2 {
      TwoPiecesJoin(str);
    } else {
      ThreePiecesJoin(str);
      assert str == tokens[0] + ":" + tokens[1] + ":n";
    }
  }

  /** Text that splits into two pieces is the two pieces joined by a colon. */
  lemma {:induction false} TwoPiecesJoin(str: string)
    requires |JuceText.SplitOnColons(str)| == 2
    ensures var tokens := JuceText.SplitOnColons(str);
      str == tokens[0] + ":" + tokens[1]
  {
    var tokens := JuceText.SplitOnColons(str);
    JuceText.JoinPieces(str);
    assert tokens[1..] == [tokens[1]];
    assert JuceText.JoinWithColons(tokens) == tokens[0] + ":" + tokens[1];
  }

  /** Text that splits into three pieces is the three pieces joined by colons. */
  lemma {:induction false} ThreePiecesJoin(str: string)
    requires |JuceText.SplitOnColons(str)| == 3
    ensures var tokens := JuceText.SplitOnColons(str);
      str == tokens[0] + ":" + tokens[1] + ":" + tokens[2]
  {
    var tokens := JuceText.SplitOnColons(str);
    JuceText.JoinPieces(str);
    assert tokens[1..][1..] == [tokens[2]];
    assert JuceText.JoinWithColons(tokens[1..]) == tokens[1] + ":" + tokens[2];
    assert JuceText.JoinWithColons(tokens) == tokens[0] + ":" + (tokens[1] + ":" + tokens[2]);
  }

  /** "gain:0.5:n" sets "gain" to the normalised value 0.5. */
  lemma NormalizedArgumentExample()
    ensures ParsePluginParameterArgument("gain" + ":" + "0.5" + ":n") == Ok(ParameterCliArgument("gain", "", 0.5, true))
  {
    HalfIsAFloat();
    NormalizedArgument("gain", "0.5");
  }

  lemma HalfIsAFloat()
    ensures ParseFloatStrict("0.5") == Ok(0.5)
  {
    FloatStrictReadsDecimal(0, "5");
    assert NatToDecimal(0) + "." + "5" == "0.5";
    assert FractionValue("5") == 0.5;
  }

  // ---------------------------------------------------------------------------
  // Bit depth
  // ---------------------------------------------------------------------------

  const BitDepthUnsupported: string := "Bit depth must be 8, 16, 24, or 32"
  const BitDepthNotAnInteger: string := "Bit depth must be a valid integer"

  /**
   * BitDepthValidator: the empty message accepts the option. std::stoi reads a
   * prefix; a number beyond int's range throws, and any exception gives the
   * integer message.
   */
  function ValidateBitDepth(str: string): (message: string)
    ensures message == [] || message == BitDepthUnsupported || message == BitDepthNotAnInteger
  {
    match ParseIntPrefix(str)
    case None => BitDepthNotAnInteger
    case Some(parsed) =>
      if parsed.value < IntMin || parsed.value > IntMax then BitDepthNotAnInteger
      else if parsed.value != 8 && parsed.value != 16 && parsed.value != 24 && parsed.value != 32 then BitDepthUnsupported
      else []
  }

  /** A decimal depth, with anything but a digit after it, is accepted exactly when it is 8, 16, 24 or 32. */
  lemma BitDepthAccepted(n: nat, rest: string)
    requires rest == [] || !IsDigit(rest[0])
    ensures ValidateBitDepth(NatToDecimal(n) + rest) == [] <==> n in {8, 16, 24, 32}
    ensures n <= IntMax && n !in {8, 16, 24, 32} ==> ValidateBitDepth(NatToDecimal(n) + rest) == BitDepthUnsupported
  {
    IntPrefixOfDecimal(n, rest);
  }

  /** Text that does not start with a number is no integer. */
  lemma BitDepthRejectsWord(str: string)
    requires str != [] && !IsDigit(str[0]) && !IsSpace(str[0]) && str[0] != '+' && str[0] != '-'
    ensures ValidateBitDepth(str) == BitDepthNotAnInteger
  {
  }
}
