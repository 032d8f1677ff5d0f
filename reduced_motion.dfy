/**
 * `useReducedMotion`: a state cell holding whether motion is enabled. It
 * starts from the caller's value or, failing that, from the operating
 * system's reduced-motion preference; then it is toggled, set, or set from
 * a change of that preference.
 */
module ReducedMotion {
  import opened Wrappers

  /**
   * `prefersReducedMotion`: whether the `(prefers-reduced-motion: reduce)`
   * query matches, false when there is no `window`.
   */
  function PrefersReducedMotion(hasWindow: bool, matches: bool): (p: bool)
    ensures p <==> hasWindow && matches
  {
    if hasWindow then matches else false
  }

  /** The initial state: the caller's value when provided, else the negated preference. */
  function InitialMotion(initialMotionEnabled: Option<bool>, hasWindow: bool, matches: bool): (m: bool)
    ensures initialMotionEnabled.Some? ==> m == initialMotionEnabled.value
    ensures initialMotionEnabled.None? ==> (m <==> !hasWindow || !matches)
  {
    if initialMotionEnabled.Some? then initialMotionEnabled.value
    else !PrefersReducedMotion(hasWindow, matches)
  }

  /** The three ways the cell changes. */
  datatype MotionEvent =
    | ToggleMotion
    | PreferenceChange(matches: bool)
    | SetMotion(enabled: bool)

  /** The value after one event. */
  function Apply(enabled: bool, e: MotionEvent): (r: bool)
    ensures e.ToggleMotion? ==> r != enabled
    ensures e.PreferenceChange? ==> r == !e.matches
    ensures e.SetMotion? ==> r == e.enabled
  {
    match e
    case ToggleMotion => !enabled
    case PreferenceChange(matches) => !matches
    case SetMotion(v) => v
  }

  /** Two toggles restore the value. */
  lemma ToggleTwice(enabled: bool)
    ensures Apply(Apply(enabled, ToggleMotion), ToggleMotion) == enabled
  {
  }

  /** A preference change ignores the prior value, so repeating it changes nothing. */
  lemma PreferenceChangeIdempotent(a: bool, b: bool, matches: bool)
    ensures Apply(a, PreferenceChange(matches)) == Apply(b, PreferenceChange(matches))
    ensures Apply(Apply(a, PreferenceChange(matches)), PreferenceChange(matches)) == Apply(a, PreferenceChange(matches))
  {
  }

  class MotionState {
    var motionEnabled: bool

    constructor (initialMotionEnabled: Option<bool>, hasWindow: bool, matches: bool)
      ensures motionEnabled == InitialMotion(initialMotionEnabled, hasWindow, matches)
    {
      motionEnabled := InitialMotion(initialMotionEnabled, hasWindow, matches);
    }

    /** `toggleMotion`. */
    method Toggle()
      modifies this
      ensures motionEnabled == Apply(old(motionEnabled), ToggleMotion)
    {
      motionEnabled := !motionEnabled;
    }

    /** `handleChange`: the media query's new `matches`. */
    method OnPreferenceChange(matches: bool)
      modifies this
      ensures motionEnabled == Apply(old(motionEnabled), PreferenceChange(matches))
    {
      motionEnabled := !matches;
    }

    /** `setMotionEnabled`. */
    method SetMotionEnabled(enabled: bool)
      modifies this
      ensures motionEnabled == Apply(old(motionEnabled), SetMotion(enabled))
    {
      motionEnabled := enabled;
    }
  }
}
