/** The request configuration as a mutable object, and the plumbing that
    carries the Alpha-only options through the HTTP client: `buildConfig`
    (`src/alpha.ts`) and `_buildConfig` (`src/Alpha.js`) pack them into
    `config.adapter`, the `alpha-config` request interceptor
    (`src/adapters/alpha-config.ts` and its CommonJS copy) unpacks them,
    and the `defaultConfig` request interceptor
    (`src/interceptors/request/defaultConfig.ts`) fills the redirect budget
    and the client defaults in. */
module AlphaConfig {
  import opened Js

  /** A request configuration object, updated in place by the interceptors. */
  class Config {
    var fields: Fields

    constructor(fields: Fields)
      ensures this.fields == fields
    {
      this.fields := fields;
    }
  }

  /** `ALPHA_CONFIG`: the options the HTTP client would drop. */
  const AlphaKeys: set<string> := {"adapter", "lambda", "Lambda", "retry", "__retryCount"}

  // ---------------------------------------------------------------------------
  // Packing and unpacking

  /** `buildConfig(client, options)`: a copy of the options whose `adapter`
      holds the client defaults' Alpha options overridden by the request's. */
  function BuildConfig(defaults: Fields, options: Fields): (r: Fields)
    ensures r.Keys == options.Keys + {"adapter"}
    ensures forall k :: k in options && k != "adapter" ==> r[k] == options[k]
    ensures r["adapter"].Object?
    ensures forall k :: k in r["adapter"].fields <==> k in AlphaKeys && (k in options || k in defaults)
  {
    options["adapter" := Object(Assign(Pick(defaults, AlphaKeys), Pick(options, AlphaKeys)))]
  }

  /** What the `alpha-config` interceptor leaves: `adapter` removed and the
      fields it held written over the configuration. */
  function Unpacked(fields: Fields): (r: Fields)
    ensures var packed := OwnFields(Get(fields, "adapter"));
      && r.Keys == (fields.Keys - {"adapter"}) + packed.Keys
      && (forall k :: k in packed ==> r[k] == packed[k])
      && (forall k :: k in fields && k != "adapter" && k !in packed ==> r[k] == fields[k])
  {
    Assign(fields - {"adapter"}, OwnFields(Get(fields, "adapter")))
  }

  /** The `alpha-config` request interceptor, on the same object. */
  method UnpackAlphaConfig(config: Config)
    modifies config
    ensures config.fields == Unpacked(old(config.fields))
  {
    var alphaConfig := Get(config.fields, "adapter");
    config.fields := config.fields - {"adapter"};
    config.fields := Assign(config.fields, OwnFields(alphaConfig));
  }

  /** Packing then unpacking hands every Alpha option to the adapters with
      the request's value when the request has it, the client default's
      otherwise, and leaves every other option as the request gave it. */
  lemma UnpackBuildConfig(defaults: Fields, options: Fields, k: string)
    ensures var r := Unpacked(BuildConfig(defaults, options));
      && (k in AlphaKeys && k in options ==> k in r && r[k] == options[k])
      && (k in AlphaKeys && k !in options && k in defaults ==> k in r && r[k] == defaults[k])
      && (k in AlphaKeys && k !in options && k !in defaults ==> k !in r)
      && (k !in AlphaKeys ==> (k in r <==> k in options))
      && (k !in AlphaKeys && k in options ==> r[k] == options[k])
  {
    var built := BuildConfig(defaults, options);
    assert Get(built, "adapter") == built["adapter"];
  }

  // ---------------------------------------------------------------------------
  // defaultConfig

  /** The configuration the `defaultConfig` interceptor leaves: the redirect
      budget moved to `__maxRedirects` unless that is already set (5 when
      `maxRedirects` is undefined), the client's own redirects switched off,
      and `retry`, `lambda` and `Lambda` taken from the defaults when falsy. */
  function WithDefaults(fields: Fields, defaults: Fields): (r: Fields)
    ensures r.Keys == fields.Keys + {"__maxRedirects", "maxRedirects", "retry", "lambda", "Lambda"}
    ensures "__maxRedirects" in fields ==> r["__maxRedirects"] == fields["__maxRedirects"]
    ensures "__maxRedirects" !in fields && !Get(fields, "maxRedirects").Undefined? ==>
      r["__maxRedirects"] == fields["maxRedirects"]
    ensures "__maxRedirects" !in fields && Get(fields, "maxRedirects").Undefined? ==>
      r["__maxRedirects"] == Number(5)
    ensures r["maxRedirects"] == Number(0)
    ensures forall k :: k in {"retry", "lambda", "Lambda"} ==>
      (Truthy(Get(fields, k)) ==> r[k] == fields[k]) && (!Truthy(Get(fields, k)) ==> r[k] == Get(defaults, k))
    ensures forall k :: k in fields && k !in {"__maxRedirects", "maxRedirects", "retry", "lambda", "Lambda"} ==>
      r[k] == fields[k]
  {
    var budget := if "__maxRedirects" in fields then fields
      else
        var max := Get(fields, "maxRedirects");
        fields["__maxRedirects" := if !max.Undefined? then max else Number(5)];
    var off := budget["maxRedirects" := Number(0)];
    var retry := off["retry" := Or(Get(off, "retry"), Get(defaults, "retry"))];
    var lambda := retry["lambda" := Or(Get(retry, "lambda"), Get(defaults, "lambda"))];
    lambda["Lambda" := Or(Get(lambda, "Lambda"), Get(defaults, "Lambda"))]
  }

  /** The `defaultConfig` request interceptor, on the same object. */
  method ApplyDefaultConfig(config: Config, defaults: Fields)
    modifies config
    ensures config.fields == WithDefaults(old(config.fields), defaults)
  {
    if "__maxRedirects" !in config.fields {
      var max := Get(config.fields, "maxRedirects");
      config.fields := config.fields["__maxRedirects" := if !max.Undefined? then max else Number(5)];
    }
    config.fields := config.fields["maxRedirects" := Number(0)];
    config.fields := config.fields["retry" := Or(Get(config.fields, "retry"), Get(defaults, "retry"))];
    config.fields := config.fields["lambda" := Or(Get(config.fields, "lambda"), Get(defaults, "lambda"))];
    config.fields := config.fields["Lambda" := Or(Get(config.fields, "Lambda"), Get(defaults, "Lambda"))];
  }

  /** Running the interceptor again changes nothing: in particular the budget
      computed the first time is kept although `maxRedirects` is now 0. */
  lemma WithDefaultsIdempotent(fields: Fields, defaults: Fields)
    ensures WithDefaults(WithDefaults(fields, defaults), defaults) == WithDefaults(fields, defaults)
  {
    var once := WithDefaults(fields, defaults);
    var twice := WithDefaults(once, defaults);
    forall k | k in {"retry", "lambda", "Lambda"}
      ensures twice[k] == once[k]
    {
      if !Truthy(Get(once, k)) {
        assert !Truthy(Get(fields, k)) && once[k] == Get(defaults, k);
      }
    }
    assert twice.Keys == once.Keys;
  }

  /** Whatever budget the first pass recorded survives every later pass. */
  lemma {:induction false} BudgetSurvivesReapplying(fields: Fields, defaults: Fields, n: nat)
    requires "__maxRedirects" in fields
    ensures "__maxRedirects" in Reapplied(fields, defaults, n)
    ensures Reapplied(fields, defaults, n)["__maxRedirects"] == fields["__maxRedirects"]
    decreases n
  {
    if n > 0 {
      BudgetSurvivesReapplying(fields, defaults, n - 1);
    }
  }

  function Reapplied(fields: Fields, defaults: Fields, n: nat): Fields
    decreases n
  {
    if n == 0 then fields else WithDefaults(Reapplied(fields, defaults, n - 1), defaults)
  }
}
