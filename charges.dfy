/**
  How `generate` settles the charge states of the defect it was given: a
  single `--charge`, else the inclusive range between `--min-charge` and
  `--max-charge` (in either order), else whatever the defect already had;
  then a `charges` entry of the config file is used only if no charge states
  have been set by then.
 */
module ChargeStates {
  import opened Python

  function Min(a: int, b: int): int { if a <= b then a else b }

  function Max(a: int, b: int): int { if a <= b then b else a }

  /** Python's `list(range(lo, hi))`. */
  function Range(lo: int, hi: int): (r: seq<int>)
    ensures |r| == if lo < hi then hi - lo else 0
    ensures forall i :: 0 <= i < |r| ==> r[i] == lo + i
    decreases hi - lo
  {
    if lo >= hi then [] else [lo] + Range(lo + 1, hi)
  }

  /**
    The charges `generate` takes from a min/max pair,
    `list(range(min(charge_lims), max(charge_lims) + 1))`.
   */
  function ChargeRange(minCharge: int, maxCharge: int): seq<int> {
    Range(Min(minCharge, maxCharge), Max(minCharge, maxCharge) + 1)
  }

  /**
    The range holds every integer between the two bounds, both included,
    once each and in ascending order, whichever bound is the larger.
   */
  lemma ChargeRangeContents(minCharge: int, maxCharge: int)
    ensures var r := ChargeRange(minCharge, maxCharge);
      && |r| == (if minCharge <= maxCharge then maxCharge - minCharge else minCharge - maxCharge) + 1
      && r[0] == Min(minCharge, maxCharge) && r[|r| - 1] == Max(minCharge, maxCharge)
      && (forall i, j :: 0 <= i < j < |r| ==> r[i] < r[j])
      && (forall c :: c in r <==> Min(minCharge, maxCharge) <= c <= Max(minCharge, maxCharge))
  {
    var r := ChargeRange(minCharge, maxCharge);
    forall c | Min(minCharge, maxCharge) <= c <= Max(minCharge, maxCharge)
      ensures c in r
    {
      assert r[c - Min(minCharge, maxCharge)] == c;
    }
  }

  /** Swapping the two bounds gives the same list. */
  lemma ChargeRangeSymmetric(minCharge: int, maxCharge: int)
    ensures ChargeRange(minCharge, maxCharge) == ChargeRange(maxCharge, minCharge)
  {
  }

  /**
    The number Python sees in a config value that takes part in `min`, `max`
    and `+ 1`: ints, booleans (as 0 and 1) and floats; None for anything else.
   */
  function NumberOf(v: Value): Option<real> {
    match v
    case Int(i) => Some(i as real)
    case Bool(b) => Some(if b then 1.0 else 0.0)
    case Float(x) => Some(x)
    case _ => None
  }

  /** The integer `range` accepts for a value: ints and booleans only. */
  function RangeInt(v: Value): Option<int> {
    match v
    case Int(i) => Some(i)
    case Bool(b) => Some(if b then 1 else 0)
    case _ => None
  }

  /**
    `min(charge_lims)` and `max(charge_lims)` of the two-element list
    `[min_charge, max_charge]` as `range` receives them: Python's `min` keeps
    the first element unless the second is strictly smaller, and `max` keeps
    the first unless the second is strictly larger. None is the TypeError of
    comparing or of `range`: a value that is not an int or a boolean reaches
    `range`, or the two values cannot be compared as numbers.
   */
  function ChargeBounds(minCharge: Value, maxCharge: Value): (r: Option<(int, int)>)
    ensures r.Some? ==> r.value.0 <= r.value.1
    ensures RangeInt(minCharge).Some? && RangeInt(maxCharge).Some? ==>
              var a, b := RangeInt(minCharge).value, RangeInt(maxCharge).value;
              r == Some((Min(a, b), Max(a, b)))
    ensures RangeInt(minCharge).None? && NumberOf(minCharge).None? ==> r.None?
    ensures RangeInt(maxCharge).None? && NumberOf(maxCharge).None? ==> r.None?
  {
    match (NumberOf(minCharge), NumberOf(maxCharge))
    case (Some(a), Some(b)) =>
      var lo := if b < a then maxCharge else minCharge;
      var hi := if b > a then maxCharge else minCharge;
      if RangeInt(lo).Some? && RangeInt(hi).Some? then Some((RangeInt(lo).value, RangeInt(hi).value))
      else None
    case _ => None
  }

  /**
    An int and an equal float: `min` and `max` both keep the first element,
    so the float never reaches `range` when it comes second, and always does
    when it comes first.
   */
  lemma ChargeBoundsTieKeepsFirst()
    ensures ChargeBounds(Int(1), Float(1.0)) == Some((1, 1))
    ensures ChargeBounds(Float(1.0), Int(1)) == None
  {
  }

  /** The outcome of resolving the charges: the defect's charges, the settings left, and whether config charges were ignored. */
  datatype Resolution = Resolution(userCharges: Value, settings: map<string, Value>, configIgnored: bool)

  /**
    The charge resolution of `generate` as a function of the defect's
    current `user_charges`, the three charge parameters (Null is None; a
    config file can set them to any value, bypassing click's `int` type) and
    the filtered config settings. Giving exactly one of min/max without
    `--charge` is a ValueError; bounds that `min`, `max` or `range` refuse
    are a TypeError.
   */
  function Resolve(current: Value, charge: Value, minCharge: Value, maxCharge: Value,
                   settings: map<string, Value>): Result<Resolution>
  {
    var cli :=
      if charge != Null then Ok(List([charge]))
      else if minCharge != Null || maxCharge != Null then
        if minCharge == Null || maxCharge == Null then Err(ValueError)
        else match ChargeBounds(minCharge, maxCharge)
          case None => Err(TypeError)
          case Some(b) => Ok(IntList(Range(b.0, b.1 + 1)))
      else Ok(current);
    match cli
    case Err(e) => Err(e)
    case Ok(charges) =>
      if settings != map[] && "charges" in settings then
        if Truthy(charges) then Ok(Resolution(charges, settings - {"charges"}, true))
        else Ok(Resolution(settings["charges"], settings - {"charges"}, false))
      else Ok(Resolution(charges, settings, false))
  }

  /**
    The errors: a ValueError exactly when there is no single charge and only
    one of the two bounds, a TypeError exactly when both bounds are there
    but `min`, `max` or `range` refuse them.
   */
  lemma ResolveErrorIff(current: Value, charge: Value, minCharge: Value, maxCharge: Value,
                        settings: map<string, Value>)
    ensures var r := Resolve(current, charge, minCharge, maxCharge, settings);
      && (r == Err(ValueError) <==> charge == Null && (minCharge == Null) != (maxCharge == Null))
      && (r == Err(TypeError) <==> charge == Null && minCharge != Null && maxCharge != Null
                                   && ChargeBounds(minCharge, maxCharge).None?)
      && (r.Err? ==> r.error == ValueError || r.error == TypeError)
  {
  }

  /**
    A single `--charge` wins: the charges are `[charge]` whatever the bounds
    are (and whatever the charge is), and a `charges` entry in the config
    file is ignored.
   */
  lemma SingleChargeWins(current: Value, charge: Value, minCharge: Value, maxCharge: Value,
                         settings: map<string, Value>)
    requires charge != Null
    ensures var r := Resolve(current, charge, minCharge, maxCharge, settings);
      && r.Ok? && r.value.userCharges == List([charge])
      && r.value.configIgnored == ("charges" in settings)
  {
  }

  /** With both bounds and no single charge the charges are the range, in ascending order. */
  lemma BothBoundsGiveRange(current: Value, minCharge: int, maxCharge: int, settings: map<string, Value>)
    ensures var r := Resolve(current, Null, Int(minCharge), Int(maxCharge), settings);
      && r.Ok? && r.value.userCharges == IntList(ChargeRange(minCharge, maxCharge))
      && r.value.configIgnored == ("charges" in settings)
  {
    ChargeRangeContents(minCharge, maxCharge);
  }

  /**
    Without CLI charges, a config `charges` entry replaces the defect's
    charges exactly when those are still empty (falsy); otherwise it is
    ignored. Either way the entry is popped from the settings.
   */
  lemma ConfigChargesOnlyWhenUnset(current: Value, settings: map<string, Value>)
    requires "charges" in settings
    ensures var r := Resolve(current, Null, Null, Null, settings);
      && r.Ok?
      && r.value.userCharges == (if Truthy(current) then current else settings["charges"])
      && r.value.configIgnored == Truthy(current)
      && r.value.settings == settings - {"charges"}
  {
  }

  /** Without any `charges` entry in the settings, they pass through untouched. */
  lemma SettingsWithoutChargesUntouched(current: Value, charge: Value, minCharge: Value,
                                        maxCharge: Value, settings: map<string, Value>)
    requires "charges" !in settings
    ensures var r := Resolve(current, charge, minCharge, maxCharge, settings);
      r.Ok? ==> r.value.settings == settings && !r.value.configIgnored
  {
  }

  /** The defect object returned by the defect identifier, as far as its charges go. */
  class DefectObject {
    var userCharges: Value

    constructor (userCharges: Value)
      ensures this.userCharges == userCharges
    {
      this.userCharges := userCharges;
    }

    /**
      The charge blocks of `generate` (the three assignments to
      `defect_object.user_charges`). On success it returns the settings with
      `charges` popped and whether the config's charges were ignored (the
      source's warning); on the ValueError or TypeError the charges are left as they were.
     */
    method ResolveCharges(charge: Value, minCharge: Value, maxCharge: Value,
                          settings: map<string, Value>)
      returns (r: Result<(map<string, Value>, bool)>)
      modifies this
      ensures var res := Resolve(old(userCharges), charge, minCharge, maxCharge, settings);
        && (res.Err? ==> r == Err(res.error) && userCharges == old(userCharges))
        && (res.Ok? ==> r == Ok((res.value.settings, res.value.configIgnored))
                        && userCharges == res.value.userCharges)
    {
      if charge != Null {
        userCharges := List([charge]);
      } else if maxCharge != Null || minCharge != Null {
        if maxCharge == Null || minCharge == Null {
          return Err(ValueError);
        }
        var bounds := ChargeBounds(minCharge, maxCharge);
        if bounds.None? {
          return Err(TypeError);
        }
        userCharges := IntList(Range(bounds.value.0, bounds.value.1 + 1));
      }
      var rest := settings;
      var ignored := false;
      if rest != map[] && "charges" in rest {
        var charges := rest["charges"];
        rest := rest - {"charges"};
        if Truthy(userCharges) {
          ignored := true;
        } else {
          userCharges := charges;
        }
      }
      return Ok((rest, ignored));
    }
  }
}
