/**
 * Source/Utils.cpp: the seconds-to-samples conversion, the strict number parsers
 * and the lookup of a plugin parameter by name.
 */
module Utils {
  import opened Outcomes
  import opened CStdlib
  import opened Plugin

  /** secondsToSamples: (size_t) (sec * sampleRate), the product truncated to a sample count. */
  function SecondsToSamples(sec: real, sampleRate: real): (r: nat)
    ensures r < SizeModulus
    ensures 0.0 <= sec * sampleRate < SizeModulus as real ==>
      r as real <= sec * sampleRate < r as real + 1.0
  {
    CastToSize(sec * sampleRate)
  }

  /**
   * parseFloatStrict: std::stof, and std::invalid_argument unless the number used
   * the whole string. (std::stof's own invalid_argument has the same kind.)
   */
  function ParseFloatStrict(str: string): (r: Result<real>)
    ensures r.Ok? <==> ParseRealPrefix(str).Some? && ParseRealPrefix(str).value.end == |str|
    ensures r.Ok? ==> r.value == ParseRealPrefix(str).value.value
    ensures r.Err? ==> r.error == InvalidNumber(str)
  {
    match ParseRealPrefix(str)
    case None => Err(InvalidNumber(str))
    case Some(p) => if p.end != |str| then Err(InvalidNumber(str)) else Ok(p.value)
  }

  /** parseULongStrict: std::stoul, and std::invalid_argument unless it used the whole string. */
  function ParseULongStrict(str: string): (r: Result<nat>)
    ensures r.Ok? <==> ParseUnsignedPrefix(str).Some? && ParseUnsignedPrefix(str).value.end == |str|
    ensures r.Ok? ==> r.value == ParseUnsignedPrefix(str).value.value
    ensures r.Err? ==> r.error == InvalidNumber(str)
  {
    match ParseUnsignedPrefix(str)
    case None => Err(InvalidNumber(str))
    case Some(p) => if p.end != |str| then Err(InvalidNumber(str)) else Ok(p.value)
  }

  /** The strict float parser reads back what it is given in decimal notation. */
  lemma FloatStrictReadsDecimal(n: nat, f: string)
    requires AllDigits(f)
    ensures ParseFloatStrict(NatToDecimal(n)) == Ok(n as real)
    ensures ParseFloatStrict(NatToDecimal(n) + "." + f) == Ok(n as real + FractionValue(f))
  {
    RealPrefixOfInteger(n, []);
    assert NatToDecimal(n) + [] == NatToDecimal(n);
    RealPrefixOfFraction(n, f, []);
    assert NatToDecimal(n) + "." + f + [] == NatToDecimal(n) + "." + f;
  }

  /**
   * Text after the number makes the strict float parser fail, although std::stof
   * alone would accept its numeric prefix.
   */
  lemma FloatStrictRejectsTrailingText(n: nat, rest: string)
    requires rest != [] && !IsDigit(rest[0]) && rest[0] != '.'
    ensures ParseRealPrefix(NatToDecimal(n) + rest).Some?
    ensures ParseFloatStrict(NatToDecimal(n) + rest) == Err(InvalidNumber(NatToDecimal(n) + rest))
  {
    RealPrefixOfInteger(n, rest);
  }

  /** The strict unsigned parser reads back a decimal number and rejects anything after it. */
  lemma ULongStrictReadsDecimal(n: nat, rest: string)
    requires rest == [] || !IsDigit(rest[0])
    ensures rest == [] ==> ParseULongStrict(NatToDecimal(n)) == Ok(n)
    ensures rest != [] ==> ParseULongStrict(NatToDecimal(n) + rest).Err?
    ensures ParseUnsignedPrefix(NatToDecimal(n) + rest).Some?
  {
    UnsignedPrefixOfDecimal(n, rest);
    assert rest == [] ==> NatToDecimal(n) + rest == NatToDecimal(n);
  }

  /** The index of the first parameter at or after `from` whose name is `name`. */
  function FindParameter(parameters: seq<Parameter>, name: string, from: nat): (r: Result<nat>)
    requires from <= |parameters|
    ensures r.Ok? ==> from <= r.value < |parameters| && parameters[r.value].name == name
    ensures r.Ok? ==> forall j | from <= j < r.value :: parameters[j].name != name
    ensures r.Err? <==> forall j | from <= j < |parameters| :: parameters[j].name != name
    ensures r.Err? ==> r.error == UnknownParameter(name)
    decreases |parameters| - from
  {
    if from == |parameters| then Err(UnknownParameter(name))
    else if parameters[from].name == name then Ok(from)
    else FindParameter(parameters, name, from + 1)
  }

  /**
   * PluginUtils::getPluginParameterByName: the (index of the) first parameter in
   * plugin order whose name equals the query, or "Unknown parameter identifier".
   */
  function GetPluginParameterByName(parameters: seq<Parameter>, name: string): (r: Result<nat>)
    ensures r.Ok? ==> r.value < |parameters| && parameters[r.value].name == name
    ensures r.Ok? ==> forall j | 0 <= j < r.value :: parameters[j].name != name
    ensures r.Err? <==> forall j | 0 <= j < |parameters| :: parameters[j].name != name
    ensures r.Err? ==> r.error == UnknownParameter(name)
  {
    FindParameter(parameters, name, 0)
  }
}
