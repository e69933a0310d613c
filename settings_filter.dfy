/**
  How `generate` and `generate_all` turn the loaded config file into the
  keyword arguments for the distortion generator: the pseudopotential
  entries are popped out first, then every key that names a local variable
  of the command is dropped (the command's own options take precedence), and
  then every key that is not on the command's whitelist is dropped.
 */
module SettingsFilter {
  import opened Python

  /** The whitelist of `generate`. */
  const GenerateValidArgs: seq<string> := [
    "defect", "bulk", "charge", "min_charge", "max_charge", "padding", "charges",
    "defect_index", "defect_coords", "code", "name", "config", "input_file", "verbose",
    "oxidation_states", "dict_number_electrons_user", "distortion_increment",
    "bond_distortions", "local_rattle", "distorted_elements", "stdev", "d_min", "n_iter",
    "active_atoms", "nbr_cutoff", "width", "max_attempts", "max_disp", "seed"]

  /** The local names of `generate` when the filter runs: its parameters, then its locals. */
  const GenerateLocals: seq<string> := [
    "defect", "bulk", "charge", "min_charge", "max_charge", "padding", "defect_index",
    "defect_coords", "code", "name", "config", "input_file", "verbose",
    "user_settings", "user_potcar_functional", "user_potcar_settings", "pseudopotentials"]

  /** The whitelist of `generate_all`. */
  const GenerateAllValidArgs: seq<string> := [
    "defects", "bulk", "structure_file", "code", "config", "input_file", "verbose",
    "oxidation_states", "charges", "charge", "padding", "dict_number_electrons_user",
    "distortion_increment", "bond_distortions", "local_rattle", "distorted_elements",
    "stdev", "d_min", "n_iter", "active_atoms", "nbr_cutoff", "width", "max_attempts",
    "max_disp", "seed"]

  /**
    The local names of `generate_all` when the filter runs. `_bulk_oxi_states`
    is bound only when the bulk oxidation states could be guessed; it is left
    out here because it is not whitelisted (see UnlistedLocalIrrelevant).
   */
  const GenerateAllLocals: seq<string> := [
    "defects", "bulk", "padding", "structure_file", "code", "config", "input_file", "verbose",
    "bulk_struct", "bulk_struct_w_oxi", "defects_dirs", "user_settings", "defect_settings",
    "user_potcar_functional", "user_potcar_settings", "pseudopotentials"]

  /** The config keys that can reach the distortion generator from `generate`. */
  const GenerateConfigOnly: set<string> := {
    "charges", "oxidation_states", "dict_number_electrons_user", "distortion_increment",
    "bond_distortions", "local_rattle", "distorted_elements", "stdev", "d_min", "n_iter",
    "active_atoms", "nbr_cutoff", "width", "max_attempts", "max_disp", "seed"}

  /** The config keys that can reach the distortion generator from `generate_all`. */
  const GenerateAllConfigOnly: set<string> := {
    "oxidation_states", "charges", "charge", "dict_number_electrons_user",
    "distortion_increment", "bond_distortions", "local_rattle", "distorted_elements",
    "stdev", "d_min", "n_iter", "active_atoms", "nbr_cutoff", "width", "max_attempts",
    "max_disp", "seed"}

  /** The whitelisted keys of `generate` that are not its local names are the config-only ones. */
  lemma GenerateSurvivors(k: string)
    ensures k in GenerateValidArgs && k !in GenerateLocals <==> k in GenerateConfigOnly
  {
    if k in GenerateConfigOnly {
      GenerateConfigOnlyNotLocal(k);
    } else {
      GenerateNonConfigFiltered(k);
    }
  }

  lemma GenerateConfigOnlyNotLocal(k: string)
    requires k in GenerateConfigOnly
    ensures k in GenerateValidArgs && k !in GenerateLocals
  {
    if k in {"charges", "oxidation_states", "dict_number_electrons_user", "distortion_increment"} {
      GenerateChargeKeysKept(k);
    } else if k in {"bond_distortions", "local_rattle", "distorted_elements", "stdev"} {
      GenerateDistortionKeysKept(k);
    } else if k in {"d_min", "n_iter", "active_atoms", "nbr_cutoff"} {
      GenerateRattleKeysKept(k);
    } else {
      GenerateRattleLimitKeysKept(k);
    }
  }

  lemma GenerateChargeKeysKept(k: string)
    requires k in {"charges", "oxidation_states", "dict_number_electrons_user", "distortion_increment"}
    ensures k in GenerateValidArgs && k !in GenerateLocals
  {
  }

  lemma GenerateDistortionKeysKept(k: string)
    requires k in {"bond_distortions", "local_rattle", "distorted_elements", "stdev"}
    ensures k in GenerateValidArgs && k !in GenerateLocals
  {
  }

  lemma GenerateRattleKeysKept(k: string)
    requires k in {"d_min", "n_iter", "active_atoms", "nbr_cutoff"}
    ensures k in GenerateValidArgs && k !in GenerateLocals
  {
  }

  lemma GenerateRattleLimitKeysKept(k: string)
    requires k in {"width", "max_attempts", "max_disp", "seed"}
    ensures k in GenerateValidArgs && k !in GenerateLocals
  {
  }

  lemma GenerateNonConfigFiltered(k: string)
    requires k !in GenerateConfigOnly
    ensures !(k in GenerateValidArgs && k !in GenerateLocals)
  {
  }

  /** The whitelisted keys of `generate_all` that are not its local names are the config-only ones. */
  lemma GenerateAllSurvivors(k: string)
    ensures k in GenerateAllValidArgs && k !in GenerateAllLocals <==> k in GenerateAllConfigOnly
  {
    if k in GenerateAllConfigOnly {
      GenerateAllConfigOnlyNotLocal(k);
    } else {
      GenerateAllNonConfigFiltered(k);
    }
  }

  lemma GenerateAllSurvivorsAll()
    ensures forall k :: k in GenerateAllValidArgs && k !in GenerateAllLocals <==> k in GenerateAllConfigOnly
  {
    forall k ensures k in GenerateAllValidArgs && k !in GenerateAllLocals <==> k in GenerateAllConfigOnly {
      GenerateAllSurvivors(k);
    }
  }

  lemma GenerateAllConfigOnlyNotLocal(k: string)
    requires k in GenerateAllConfigOnly
    ensures k in GenerateAllValidArgs && k !in GenerateAllLocals
  {
    if k in {"oxidation_states", "charges", "charge", "dict_number_electrons_user"} {
      GenerateAllChargeKeysKept(k);
    } else if k in {"distortion_increment", "bond_distortions", "local_rattle", "distorted_elements"} {
      GenerateAllDistortionKeysKept(k);
    } else if k in {"stdev", "d_min", "n_iter", "active_atoms"} {
      GenerateAllRattleKeysKept(k);
    } else {
      GenerateAllRattleLimitKeysKept(k);
    }
  }

  lemma GenerateAllChargeKeysKept(k: string)
    requires k in {"oxidation_states", "charges", "charge", "dict_number_electrons_user"}
    ensures k in GenerateAllValidArgs && k !in GenerateAllLocals
  {
  }

  lemma GenerateAllDistortionKeysKept(k: string)
    requires k in {"distortion_increment", "bond_distortions", "local_rattle", "distorted_elements"}
    ensures k in GenerateAllValidArgs && k !in GenerateAllLocals
  {
  }

  lemma GenerateAllRattleKeysKept(k: string)
    requires k in {"stdev", "d_min", "n_iter", "active_atoms"}
    ensures k in GenerateAllValidArgs && k !in GenerateAllLocals
  {
  }

  lemma GenerateAllRattleLimitKeysKept(k: string)
    requires k in {"nbr_cutoff", "width", "max_attempts", "max_disp", "seed"}
    ensures k in GenerateAllValidArgs && k !in GenerateAllLocals
  {
  }

  lemma GenerateAllNonConfigFiltered(k: string)
    requires k !in GenerateAllConfigOnly
    ensures !(k in GenerateAllValidArgs && k !in GenerateAllLocals)
  {
  }

  /** The settings that survive: whitelisted, not a local name, value unchanged. */
  function Filtered(settings: map<string, Value>, localNames: set<string>, validArgs: set<string>): map<string, Value>
  {
    map k | k in settings && k !in localNames && k in validArgs :: settings[k]
  }

  /**
    The two pop loops over `user_settings`: first over the local names, then
    over a snapshot of the remaining keys. An empty map is left as it is.
   */
  method FilterUserSettings(settings: map<string, Value>, localNames: seq<string>, validArgs: seq<string>)
    returns (r: map<string, Value>)
    ensures forall k :: k in r <==> k in settings && k !in localNames && k in validArgs
    ensures forall k :: k in r ==> r[k] == settings[k]
    ensures r == Filtered(settings, set k | k in localNames, set k | k in validArgs)
  {
    r := settings;
    if r != map[] {
      var i := 0;
      while i < |localNames|
        invariant 0 <= i <= |localNames|
        invariant forall k :: k in r <==> k in settings && k !in localNames[..i]
        invariant forall k :: k in r ==> r[k] == settings[k]
      {
        if localNames[i] in r {
          r := r - {localNames[i]};
        }
        i := i + 1;
      }
      var keys := r.Keys;
      while keys != {}
        invariant keys <= r.Keys
        invariant forall k :: k in r <==> k in settings && k !in localNames && (k in keys || k in validArgs)
        invariant forall k :: k in r ==> r[k] == settings[k]
        decreases keys
      {
        var k :| k in keys;
        if k !in validArgs {
          r := r - {k};
        }
        keys := keys - {k};
      }
    }
  }

  /** Filtering the filtered settings again changes nothing. */
  lemma FilterIdempotent(settings: map<string, Value>, localNames: set<string>, validArgs: set<string>)
    ensures Filtered(Filtered(settings, localNames, validArgs), localNames, validArgs)
         == Filtered(settings, localNames, validArgs)
  {
  }

  /** An extra local name that is not whitelisted does not change the outcome. */
  lemma UnlistedLocalIrrelevant(settings: map<string, Value>, localNames: set<string>, validArgs: set<string>, x: string)
    requires x !in validArgs
    ensures Filtered(settings, localNames + {x}, validArgs) == Filtered(settings, localNames, validArgs)
  {
  }

  /**
    What survives popping (some of) the keys `popped` and filtering, when the keys that
    pass the filter are exactly `survivors` and none of those was popped.
   */
  lemma PopThenFilter(cfg: map<string, Value>, popped: set<string>, us: map<string, Value>,
                      r: map<string, Value>, localNames: seq<string>, validArgs: seq<string>,
                      survivors: set<string>)
    requires cfg.Keys - popped <= us.Keys <= cfg.Keys && forall k :: k in us ==> us[k] == cfg[k]
    requires forall k :: k in r <==> k in us && k !in localNames && k in validArgs
    requires forall k :: k in r ==> r[k] == us[k]
    requires forall k :: k in validArgs && k !in localNames <==> k in survivors
    requires popped !! survivors
    ensures forall k :: k in r <==> k in cfg && k in survivors
    ensures forall k :: k in r ==> r[k] == cfg[k]
  {
  }

  /** The keys popped out of the config file before filtering. */
  const PseudopotentialKeys: set<string> := {"POTCAR_FUNCTIONAL", "POTCAR", "pseudopotentials"}

  lemma PseudopotentialKeysNotConfigOnly()
    ensures PseudopotentialKeys !! GenerateConfigOnly
    ensures PseudopotentialKeys + {"defects"} !! GenerateAllConfigOnly
  {
  }

  /** The pseudopotential entries and the filtered keyword arguments of one command. */
  datatype Prepared = Prepared(potcarFunctional: Value, potcar: Value, pseudopotentials: Value,
                               settings: map<string, Value>)

  /**
    The three pops that both commands make first: the POTCAR functional
    (default "PBE"), the POTCAR settings and the pseudopotentials (default None).
   */
  method PopPseudopotentials(userSettings: map<string, Value>)
    returns (functional: Value, potcar: Value, pseudos: Value, rest: map<string, Value>)
    ensures functional == if "POTCAR_FUNCTIONAL" in userSettings then userSettings["POTCAR_FUNCTIONAL"] else Str("PBE")
    ensures potcar == if "POTCAR" in userSettings then userSettings["POTCAR"] else Null
    ensures pseudos == if "pseudopotentials" in userSettings then userSettings["pseudopotentials"] else Null
    ensures rest.Keys == userSettings.Keys - PseudopotentialKeys
    ensures forall k :: k in rest ==> rest[k] == userSettings[k]
  {
    var popped := Pop(userSettings, "POTCAR_FUNCTIONAL", Str("PBE"));
    functional, rest := popped.0, popped.1;
    popped := Pop(rest, "POTCAR", Null);
    potcar, rest := popped.0, popped.1;
    popped := Pop(rest, "pseudopotentials", Null);
    pseudos, rest := popped.0, popped.1;
  }

  /** `generate`, from loading the config file to the end of the filter. */
  method PrepareGenerateSettings(loaded: Option<map<string, Value>>) returns (p: Prepared)
    ensures var cfg := if loaded.Some? then loaded.value else map[];
      && p.potcarFunctional == (if "POTCAR_FUNCTIONAL" in cfg then cfg["POTCAR_FUNCTIONAL"] else Str("PBE"))
      && p.potcar == (if "POTCAR" in cfg then cfg["POTCAR"] else Null)
      && p.pseudopotentials == (if "pseudopotentials" in cfg then cfg["pseudopotentials"] else Null)
      && (forall k :: k in p.settings <==> k in cfg && k in GenerateConfigOnly)
      && (forall k :: k in p.settings ==> p.settings[k] == cfg[k])
  {
    var cfg := if loaded.Some? then loaded.value else map[];
    var functional, potcar, pseudos, userSettings := PopPseudopotentials(cfg);
    var settings := FilterUserSettings(userSettings, GenerateLocals, GenerateValidArgs);
    forall k ensures k in GenerateValidArgs && k !in GenerateLocals <==> k in GenerateConfigOnly {
      GenerateSurvivors(k);
    }
    PseudopotentialKeysNotConfigOnly();
    PopThenFilter(cfg, PseudopotentialKeys, userSettings, settings, GenerateLocals, GenerateValidArgs,
                  GenerateConfigOnly);
    p := Prepared(functional, potcar, pseudos, settings);
  }

  /** What the filter of `generate_all` leaves of a config file from which `defects` and the pseudopotential keys may have been popped. */
  lemma GenerateAllFilterOutcome(cfg: map<string, Value>, rest: map<string, Value>, r: map<string, Value>)
    requires cfg.Keys - ({"defects"} + PseudopotentialKeys) <= rest.Keys <= cfg.Keys
    requires forall k :: k in rest ==> rest[k] == cfg[k]
    requires forall k :: k in r <==> k in rest && k !in GenerateAllLocals && k in GenerateAllValidArgs
    requires forall k :: k in r ==> r[k] == rest[k]
    ensures forall k :: k in r <==> k in cfg && k in GenerateAllConfigOnly
    ensures forall k :: k in r ==> r[k] == cfg[k]
  {
    GenerateAllSurvivorsAll();
    PseudopotentialKeysNotConfigOnly();
    PopThenFilter(cfg, PseudopotentialKeys + {"defects"}, rest, r, GenerateAllLocals,
                  GenerateAllValidArgs, GenerateAllConfigOnly);
  }

  /** The defect-specific config section and the prepared settings of `generate_all`. */
  datatype PreparedAll = PreparedAll(defectSettings: map<string, Value>, prepared: Prepared)

  /**
    `generate_all`, from loading the config file to the end of the filter.
    A truthy `defects` entry becomes the per-defect settings and leaves the
    keyword arguments; one that is not a mapping is reported as a TypeError.
    A falsy `defects` entry stays behind and is dropped by the filter, since
    `defects` is a parameter of the command.
   */
  method PrepareGenerateAllSettings(loaded: Option<map<string, Value>>) returns (r: Result<PreparedAll>)
    ensures var cfg := if loaded.Some? then loaded.value else map[];
      var defects := if "defects" in cfg then cfg["defects"] else Null;
      && (r.Err? <==> Truthy(defects) && !defects.Dict?)
      && (r.Ok? ==>
        && r.value.defectSettings == (if Truthy(defects) then defects.entries else map[])
        && r.value.prepared.potcarFunctional == (if "POTCAR_FUNCTIONAL" in cfg then cfg["POTCAR_FUNCTIONAL"] else Str("PBE"))
        && r.value.prepared.potcar == (if "POTCAR" in cfg then cfg["POTCAR"] else Null)
        && r.value.prepared.pseudopotentials == (if "pseudopotentials" in cfg then cfg["pseudopotentials"] else Null)
        && (forall k :: k in r.value.prepared.settings <==> k in cfg && k in GenerateAllConfigOnly)
        && (forall k :: k in r.value.prepared.settings ==> r.value.prepared.settings[k] == cfg[k]))
  {
    var userSettings: map<string, Value> := map[];
    var defectSettings: map<string, Value> := map[];
    if loaded.Some? {
      userSettings := loaded.value;
      var defects := if "defects" in userSettings then userSettings["defects"] else Null;
      if Truthy(defects) {
        if !defects.Dict? {
          return Err(TypeError);
        }
        defectSettings := defects.entries;
        userSettings := userSettings - {"defects"};
      }
    }
    ghost var cfg := if loaded.Some? then loaded.value else map[];
    assert cfg.Keys - {"defects"} <= userSettings.Keys <= cfg.Keys;
    assert forall k :: k in userSettings ==> userSettings[k] == cfg[k];
    var functional, potcar, pseudos, rest := PopPseudopotentials(userSettings);
    var settings := FilterUserSettings(rest, GenerateAllLocals, GenerateAllValidArgs);
    GenerateAllFilterOutcome(cfg, rest, settings);
    r := Ok(PreparedAll(defectSettings, Prepared(functional, potcar, pseudos, settings)));
  }
}
