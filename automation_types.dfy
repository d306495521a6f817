/**
 * Source/Automation.h: the two ordered maps of the automation engine.
 *
 * AutomationKeyframes is a std::map from keyframe time (in samples) to the
 * parameter's value at that time. It is modelled as the sequence in which a
 * std::map visits its entries, so its times are unique and strictly ascending;
 * std::upper_bound walks exactly this sequence.
 */
module AutomationTypes {

  datatype Keyframe = Keyframe(time: nat, value: real)

  /** AutomationKeyframes, in iteration order. */
  type Keyframes = seq<Keyframe>

  /** The std::map ordering: times strictly ascending, hence unique. */
  predicate IsAscending(keyframes: Keyframes) {
    forall i, j | 0 <= i < j < |keyframes| :: keyframes[i].time < keyframes[j].time
  }

  /** std::map::contains on the time key. */
  predicate HasTime(keyframes: Keyframes, time: nat) {
    exists kf | kf in keyframes :: kf.time == time
  }

  /**
   * keyframes[time] = value for a time not yet present: the new keyframe goes
   * where the ordering puts it.
   */
  function Insert(keyframes: Keyframes, time: nat, value: real): (r: Keyframes)
    requires IsAscending(keyframes) && !HasTime(keyframes, time)
    ensures IsAscending(r)
    ensures |r| == |keyframes| + 1
    ensures forall kf :: kf in r <==> kf in keyframes || kf == Keyframe(time, value)
  {
    if keyframes == [] || time < keyframes[0].time then
      [Keyframe(time, value)] + keyframes
    else
      assert !HasTime(keyframes[1..], time) by {
        forall kf | kf in keyframes[1..] ensures kf.time != time {
          assert kf in keyframes;
        }
      }
      var rest := Insert(keyframes[1..], time, value);
      assert forall kf | kf in keyframes[1..] :: keyframes[0].time < kf.time by {
        forall kf | kf in keyframes[1..] ensures keyframes[0].time < kf.time {
          var k :| 0 <= k < |keyframes| - 1 && keyframes[1..][k] == kf;
          assert keyframes[k + 1] == kf;
        }
      }
      assert keyframes[0].time != time;
      assert forall k | 0 <= k < |rest| :: rest[k] in rest;
      var r := [keyframes[0]] + rest;
      assert keyframes == [keyframes[0]] + keyframes[1..];
      r
  }

  /** After an insertion the track holds the new time as well as all the old ones. */
  lemma HasTimeAfterInsert(keyframes: Keyframes, time: nat, value: real, t: nat)
    requires IsAscending(keyframes) && !HasTime(keyframes, time)
    ensures HasTime(Insert(keyframes, time, value), t) <==> HasTime(keyframes, t) || t == time
  {
    var r := Insert(keyframes, time, value);
    if HasTime(keyframes, t) {
      var kf :| kf in keyframes && kf.time == t;
      assert kf in r;
    }
    if t == time {
      assert Keyframe(time, value) in r;
    }
  }

  /** ParameterAutomation: each parameter name maps to exactly one track of keyframes. */
  type ParameterAutomation = map<string, Keyframes>

  /** A track every keyframe of which is usable by the interpolator. */
  predicate IsPlayableTrack(keyframes: Keyframes) {
    IsAscending(keyframes) && keyframes != []
  }

  predicate IsPlayable(automation: ParameterAutomation) {
    forall name | name in automation :: IsPlayableTrack(automation[name])
  }
}
