/** The package entry point: the output mode every plugin is given and the list of plugins
    `hulakPlugins` assembles from its configuration. The Handlebars plugin itself is built by a
    constructor whose text is not part of this model; its value here records only the options it
    is given. */
module Plugins {
  import opened Strings
  import opened Objects

  /** `normalizeMode(mode)`: `mode` is `None` when the argument is `undefined`, which defaults
      to `'javascript'`. The lower-cased text `ts` or `typescript` gives `typescript`, and
      everything else `javascript`. */
  function NormalizeMode(mode: Option<string>): (r: string)
    ensures r == "typescript" || r == "javascript"
    ensures r == "typescript" <==> mode.Some? && (Lower(mode.value) == "ts" || Lower(mode.value) == "typescript")
  {
    var normalized := Lower(if mode.Some? then mode.value else "javascript");
    assert mode.None? ==> normalized == "javascript";
    if normalized == "ts" || normalized == "typescript" then "typescript" else "javascript"
  }

  /** A text without upper-case letters is its own lower case. */
  lemma LowerLowercase(s: string)
    requires forall i :: 0 <= i < |s| ==> !('A' <= s[i] <= 'Z')
    ensures Lower(s) == s
  {
  }

  /** A normalised mode normalises to itself. */
  lemma NormalizeModeIdempotent(mode: Option<string>)
    ensures NormalizeMode(Some(NormalizeMode(mode))) == NormalizeMode(mode)
  {
    LowerLowercase("typescript");
    LowerLowercase("javascript");
  }

  /** Whatever the case of its letters, `ts` names TypeScript and `js` names JavaScript. */
  lemma ModeSpellings()
    ensures NormalizeMode(Some("TS")) == NormalizeMode(Some("TypeScript")) == "typescript"
    ensures NormalizeMode(Some("JS")) == NormalizeMode(None) == "javascript"
  {
    assert Lower("TS") == "ts";
    assert Lower("TypeScript") == "typescript";
    assert Lower("JS") == "js";
    LowerLowercase("javascript");
  }

  /** The destructured configuration: each field is `None` when it is `undefined`. */
  datatype Config = Config(mode: Option<string>, enableHandlebars: Option<Value>, handlebarsOptions: Option<Object<Value>>)

  /** A Handlebars plugin, known by the options it was built from. */
  datatype Plugin = Handlebars(options: Object<Value>)

  /** `enableHandlebars = false`, then the `if (enableHandlebars)` test. */
  predicate Enabled(config: Config) {
    config.enableHandlebars.Some? && Truthy(config.enableHandlebars.value)
  }

  function Options(config: Config): Object<Value> {
    if config.handlebarsOptions.Some? then config.handlebarsOptions.value else []
  }

  /** `hulakPlugins(config)`: no plugin unless Handlebars is enabled, and then exactly one,
      whose options are the Handlebars options with `mode` set to the normalised mode (it wins
      over a `mode` among those options). */
  method HulakPlugins(config: Config) returns (plugins: seq<Plugin>)
    ensures !Enabled(config) ==> plugins == []
    ensures Enabled(config) ==> |plugins| == 1
    ensures Enabled(config) ==>
              && Keys(Options(config)) <= Keys(plugins[0].options)
              && forall k :: Get(plugins[0].options, k) ==
                   if k == "mode" then Some(Str(NormalizeMode(config.mode))) else Get(Options(config), k)
  {
    var normalizedMode := NormalizeMode(config.mode);
    plugins := [];
    var pluginConfig: Object<Value> := [("mode", Str(normalizedMode))];
    if Enabled(config) {
      plugins := plugins + [Handlebars(Spread(Options(config), pluginConfig))];
    }
  }
}
