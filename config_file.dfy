/**
  Config-file defaults for the `generate` and `generate_all` commands
  (`CommandWithConfigFile`): before a command runs, every parameter that is
  still at its default value and is named in the config file takes the
  config file's value.
 */
module ConfigFile {
  import opened Python

  /** Where click says a parameter's value came from (`click.core.ParameterSource`). */
  datatype ParameterSource = CommandLine | Environment | DefaultMap | Default | Prompt

  /**
    The config file replaces parameter `p` exactly when click reports its
    source as DEFAULT and the config file has a key `p`. A parameter click
    has no source for is not DEFAULT.
   */
  predicate TakesConfigValue(p: string, sources: map<string, ParameterSource>, config: map<string, Value>) {
    p in sources && sources[p] == Default && p in config
  }

  /** The parameters after the config file has been applied to them. */
  function Overridden(params: map<string, Value>, sources: map<string, ParameterSource>,
                      config: map<string, Value>): map<string, Value>
  {
    map p | p in params :: if TakesConfigValue(p, sources, config) then config[p] else params[p]
  }

  /** No parameter is added or dropped, and each one holds the config value iff it takes it. */
  lemma OverriddenValues(params: map<string, Value>, sources: map<string, ParameterSource>,
                         config: map<string, Value>)
    ensures Overridden(params, sources, config).Keys == params.Keys
    ensures forall p :: p in params && TakesConfigValue(p, sources, config) ==>
              Overridden(params, sources, config)[p] == config[p]
    ensures forall p :: p in params && !TakesConfigValue(p, sources, config) ==>
              Overridden(params, sources, config)[p] == params[p]
  {
  }

  /** A parameter given on the command line (or any non-default way) keeps its value. */
  lemma ExplicitParametersUnchanged(params: map<string, Value>, sources: map<string, ParameterSource>,
                                    config: map<string, Value>, p: string)
    requires p in params && p in sources && sources[p] != Default
    ensures Overridden(params, sources, config)[p] == params[p]
  {
  }

  /** Applying the same config file a second time changes nothing more. */
  lemma OverriddenIdempotent(params: map<string, Value>, sources: map<string, ParameterSource>,
                             config: map<string, Value>)
    ensures Overridden(Overridden(params, sources, config), sources, config) == Overridden(params, sources, config)
  {
  }

  /** The click context of one command invocation: its parsed parameters and their sources. */
  class Context {
    var params: map<string, Value>
    const sources: map<string, ParameterSource>

    constructor (params: map<string, Value>, sources: map<string, ParameterSource>)
      ensures this.params == params && this.sources == sources
    {
      this.params := params;
      this.sources := sources;
    }

    /**
      `CustomCommandClass.invoke`, up to the call that runs the command.
      `configData` is what loading the file named by parameter `configParam`
      yields. The result is Ok(true) when a config file was named and
      applied, Ok(false) when the parameter is None, and KeyError when the
      command has no such parameter.
     */
    method ApplyConfigFile(configParam: string, configData: map<string, Value>) returns (r: Result<bool>)
      modifies this`params
      ensures configParam !in old(params) ==> r == Err(KeyError) && params == old(params)
      ensures configParam in old(params) && old(params)[configParam] == Null ==>
                r == Ok(false) && params == old(params)
      ensures configParam in old(params) && old(params)[configParam] != Null ==>
                r == Ok(true) && params == Overridden(old(params), sources, configData)
    {
      if configParam !in params {
        return Err(KeyError);
      }
      if params[configParam] == Null {
        return Ok(false);
      }
      ghost var before := params;
      var todo := params.Keys;
      while todo != {}
        invariant todo <= before.Keys && params.Keys == before.Keys
        invariant forall p :: p in params && p !in todo ==> params[p] == Overridden(before, sources, configData)[p]
        invariant forall p :: p in todo ==> params[p] == before[p]
        decreases todo
      {
        var p :| p in todo;
        if p in sources && sources[p] == Default && p in configData {
          params := params[p := configData[p]];
        }
        todo := todo - {p};
      }
      return Ok(true);
    }
  }
}
