/**
 * The three sampling parameters edited in the task table's sampling menu
 * (src/components/TaskMonitoring.tsx) and on the upload page (src/components/ParametersSelect.tsx),
 * the record update both use, and the validity gate both apply before enabling their button.
 */
module Params {
  import opened Numbers

  datatype Key = Margin | Confidence | ResponseDistribution

  datatype Params = Params(margin: Num, confidence: Num, responseDistribution: Num)

  function Get(p: Params, key: Key): Num
  {
    match key
    case Margin => p.margin
    case Confidence => p.confidence
    case ResponseDistribution => p.responseDistribution
  }

  /** `{ ...p, [key]: value }`: only the named key changes. */
  function Update(p: Params, key: Key, value: Num): (r: Params)
    ensures Get(r, key) == value
    ensures forall other :: other != key ==> Get(r, other) == Get(p, other)
  {
    match key
    case Margin => p.(margin := value)
    case Confidence => p.(confidence := value)
    case ResponseDistribution => p.(responseDistribution := value)
  }

  /** The keys the gate checks, in the source's order. */
  const RequiredKeys: seq<Key> := [Confidence, Margin, ResponseDistribution]

  /** `Number.isFinite(v) && v >= 0`. */
  predicate ValidParam(v: Num)
  {
    v.Finite? && v.value >= 0.0
  }

  /** `requiredKeys.every(key => Number.isFinite(params[key]) && params[key] >= 0)`. */
  predicate HasAllValidParams(p: Params)
  {
    forall i :: 0 <= i < |RequiredKeys| ==> ValidParam(Get(p, RequiredKeys[i]))
  }

  /** The gate holds exactly when each of the three values is finite and not negative. */
  lemma ValidIffEachKeyValid(p: Params)
    ensures HasAllValidParams(p) <==> forall key :: ValidParam(Get(p, key))
  {
    forall key
      ensures HasAllValidParams(p) ==> ValidParam(Get(p, key))
    {
      if HasAllValidParams(p) {
        match key
        case Confidence => assert RequiredKeys[0] == key;
        case Margin => assert RequiredKeys[1] == key;
        case ResponseDistribution => assert RequiredKeys[2] == key;
      }
    }
  }

  /** The `-1` an input emits for invalid text, or `NaN`, in any one key closes the gate, whatever the other two hold. */
  lemma {:induction false} InvalidValueDisables(p: Params, key: Key, v: Num)
    requires v == Sentinel || v == NaN
    ensures !HasAllValidParams(Update(p, key, v))
  {
    ValidIffEachKeyValid(Update(p, key, v));
  }

  /** The values the page starts with and the sampling menu resets to. */
  const Defaults: Params := Params(Finite(0.05), Finite(0.95), Finite(0.5))

  /** `resetValues`: three successive single-key updates. */
  function ResetValues(p: Params): Params
  {
    Update(Update(Update(p, Margin, Finite(0.05)), Confidence, Finite(0.95)), ResponseDistribution, Finite(0.5))
  }

  /** Whatever the parameters were, resetting gives the defaults, and the defaults pass the gate. */
  lemma ResetGivesValidDefaults(p: Params)
    ensures ResetValues(p) == Defaults
    ensures HasAllValidParams(Defaults)
  {
  }
}
