/**
 * The host's view of a loaded plugin. A parameter's behaviour is supplied by the
 * plugin, so its text conversions are given as functions; the plugin object holds
 * the live (normalised) value of each of its parameters, which setValue updates.
 */
module Plugin {

  /**
   * juce::AudioProcessorParameter as the engine uses it: getName, getText (the
   * length limit of 1024 characters is not modelled), getValueForText and getNumSteps.
   */
  datatype Parameter = Parameter(
    name: string,
    getText: real -> string,
    getValueForText: string -> real,
    numSteps: int)

  /** A plugin instance: its parameters in plugin order and their current values. */
  class Instance {
    const parameters: seq<Parameter>
    var values: seq<real>

    ghost predicate Valid()
      reads this
    {
      |values| == |parameters|
    }

    constructor (parameters: seq<Parameter>, initial: seq<real>)
      requires |initial| == |parameters|
      ensures Valid()
      ensures this.parameters == parameters && values == initial
    {
      this.parameters := parameters;
      values := initial;
    }

    /** AudioProcessorParameter::setValue on the parameter at the given index. */
    method SetValue(index: nat, value: real)
      requires Valid() && index < |parameters|
      modifies this
      ensures Valid()
      ensures values == old(values)[index := value]
    {
      values := values[index := value];
    }
  }
}
